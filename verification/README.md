# Verified model of the native transfer, rendezvous and LocalSend cores

This project models the stateful parts of a peer-to-peer file transfer system in Dafny and
proves what they are for. It covers the resumable native transfer (chunk planning, the
manifest of verified ranges, part files, publishing into the inbox), the two-party wire
session that drives it, the rendezvous registry, the LocalSend upload sessions, approval gate
and inbox writer, and the parsers and orderings around them.

`dafny verify dfyconfig.toml` checks every file.

## What the model is made of

A `World` holds the part files, the inbox and the manifest rows of one receiver. A part file
or inbox entry is a byte sequence under a name. Digests are a parameter `hash`: nothing is
assumed about it except, for the frame codec, that digests are 64 hexadecimal digits, of
either case. Manifest rows keep the signed 64-bit values the store keeps, keyed by offset as the
schema's primary key says (`crates/protocol-native-v1/src/manifest_schema.sql:20-28`).

Each object the source updates in place is a class (`ManifestStore`,
`NativeTransferReceiver`, `NativeTransferSender`, `ByteStream`, `PeerRegistry`,
`SessionManager`, `UploadGate`, `InboxWriter`), and the loops of its operations are loops with
invariants; single database statements and iterator folds are functions. Methods are proved
against functions on values (`Finish`, `ReceiveChunk`, `Resume`, `Gate`, …) or against what they
promise outright. The theorems are about those functions over every input, every sequence of
events or every schedule of the two parties.

An interruption is an event of its own: `TornChunk` is a chunk write cut off at any byte
before its range is recorded, and `TornFinish` a finish cut off after any number of moves.

| files | subject |
|---|---|
| Prelude, Text, Sorting, Bits, Utf8 | integers of the source's widths, trimming and decimal digits, stable sorting, bitwise operators, UTF-8 |
| Ranges, Progress | interval arithmetic of `chunk.rs` and `manifest.rs`, and why a resume makes progress |
| Manifest, Names, Receiver, Runs, Publishing, NoHoles | the receiver, runs of arbitrary events, what publishing guarantees, what is on disk |
| Sender, Resume, Interruptions | the sender, and end-to-end delivery after interruptions |
| Wire, ByteStream, SessionChunks, Session, Schedules, Lockstep, Guards | frames, and the client and daemon as two state machines over byte streams, under any schedule and against any peer |
| Registry, Uploads, Trust, InboxWriter | the smaller stateful cores |
| EventStream, Stun, Candidates | parsers and orderings |
| Witness | a concrete session, its interruption and retry, so that the assumptions of the main theorems are not empty, and a concrete half-published transfer |

## Main results

- `Interruptions.ResumeAfterInterruptions`: after an accept of a fresh transfer and any run of
  true chunks in any order and size, torn writes, early finishes, re-accepts and traffic of
  other transfers, one resume with any positive chunk size succeeds if and only if no source
  is empty and every file can be given a name. It then adds exactly one inbox entry per source,
  named after it and equal to it. `Interruptions.ResumeAfterTornFinish` extends this to a finish
  cut off at any point, with the exact condition.
- `Lockstep.SessionDelivers` and `Lockstep.FairSessionDelivers`: for a new transfer or an
  interrupted one, under every schedule of client and daemon, neither side ever reads a frame of
  the wrong kind, the only possible failure is a finish that cannot deliver, no schedule has more
  than 2n + 12 moves for n chunks, every fair schedule ends, and at every end of a deliverable
  session both sides are done and every file is in the inbox.
- `Guards.DaemonExplained` and `Guards.ClientJustified`: each party against an arbitrary peer, any
  bytes in any pieces. The daemon's disk is always explained by what it read: untouched until it
  read a hello it admits and a request within the cap that the receiver accepts, then that of the
  accept and the chunks read, and finished only on a Done for that transfer after exactly the
  expected chunks. The client reports success only after all its chunks and a Done for its transfer.
  `Guards.RefusedSessionTouchesNothing` is the two-party form, under every schedule.
- `Publishing.PublishedWasVerified` and `Publishing.FinishSucceedsIff`: over any run with
  arbitrary chunks, whatever is new in the inbox was moved to that name by a finish that had
  verified every file of its transfer; and exactly when a finish succeeds.
- `NoHoles.CompleteFileHasNoGap`: every byte of a file judged complete is on disk and was last
  written by a chunk that passed its digest check.
- `Ranges.MergeEqualIffSameCover`, `Progress.PlanCompletes`: merged ranges are a canonical
  form, and recording the plan completes the file although rows are replaced by offset.
- `Registry.LookupIsLatest`, `Registry.NotificationsConserved`, `Uploads.AuthorizedIffPrepared`,
  `Trust.LatestDecisionRules`: each store equals its history.

## Where the code does less than one may expect

The model follows the code. These statements are proved as they are.

- An empty file never gets a part file, so no finish delivers it: the condition "no source is
  empty" in `ResumeCorrect.ResumeDelivers` is necessary as well as sufficient.
- Verification is all or none, moving is not. `Publishing.AllOrNoneIff` says exactly when a finish
  of a verified transfer moves all of its files or none: its first file cannot be given a name, or
  all can and no two share a part. Any later name that is refused leaves a part of the files moved
  (`Publishing.RefusedNameLeavesPrefix`), and `Witness.HalfPublished` is such a transfer, which a
  receiver reaches with one accept and two chunks (`Witness.TwoFilesReached`).
- A finish that is cut off behind its first move cannot be resumed: the plan is empty and the moved
  part is missing, until chunks of the transfer are sent again
  (`Interruptions.ResumeAfterTornFinish`, `Interruptions.CutFinishStaysStuck`).
- Recording a chunk at an offset that already has a longer row can lose coverage:
  `Progress.UnplannedChunkCanUncover`. `Progress.RecordKeepsCoverIff` says exactly when it
  does not, and planned chunks always satisfy the condition.
- Bytes are written before the range is checked against the file size, so a refused chunk can
  change a part file. `Runs.RefusedChunkKeepsIff` says exactly when it does not;
  `Runs.RefusedChunkWrites` covers every chunk that ends past its file. `Publishing` therefore
  assumes nothing about the chunks of a run.
- Rows outlive the parts: after a successful finish the transfer still counts as complete and a
  second finish fails on the missing part (`NoHoles.RowsOutliveParts`).
- A fingerprint first seen while it was statically listed stays trusted after it is taken off
  the list, without any operator decision (`Trust.ListedOnceStaysTrusted`).
  `Trust.LatestDecisionRules` accounts for it; `Trust.UnlistedFollowsDecision` is the case
  without static lists.
- A payload line of an event that starts with blanks loses them; `EventStream.DataRoundTrip` says
  that a payload is handed over unchanged exactly when no line does.
- Deduplicating and sorting candidates depends on the order of the input if and only if two
  candidates with the same kind and address carry different priorities
  (`Candidates.GatheredDeterminedIff`).

## Model

| member | source | states |
|---|---|---|
| `Ranges.CanonicalUnique` | crates/protocol-native-v1/src/chunk.rs:91-110 | Two lists of non-empty ranges that are sorted with strict gaps are equal if and only if they cover the same bytes. |
| `Ranges.MergeIsCanonical` | crates/protocol-native-v1/src/chunk.rs:91-110 | For any ranges, merging gives non-empty ranges sorted with strict gaps that cover exactly the same bytes, and no end passes 64 bits if none did before. |
| `Ranges.MergeEqualIffSameCover` | crates/protocol-native-v1/src/chunk.rs:91-110 | Two inputs merge to the same list if and only if they cover the same bytes. |
| `Ranges.MergedCanonical` | crates/protocol-native-v1/src/manifest.rs:364-386 | Folding sorted ranges leaves strict gaps between them and never starts after the last range read. |
| `Ranges.MergedCover` | crates/protocol-native-v1/src/manifest.rs:364-386 | Folding sorted ranges neither gains nor loses a byte. |
| `Ranges.MergeChecked` | crates/protocol-native-v1/src/chunk.rs:91-110 | The loop with checked additions fails if and only if there are at least two ranges and one ends past 64 bits; its result covers the same bytes, and without empty ranges it is the canonical form. |
| `Ranges.MergeWrapping` | crates/protocol-native-v1/src/manifest.rs:364-386 | The loop with unchecked additions folds the wrapping step over the sorted ranges, and whenever every range ends within 64 bits that is the same canonical form. |
| `Ranges.AbsorbAgrees` | crates/protocol-native-v1/src/manifest.rs:376-382 | One turn of the checked loop and one turn of the wrapping loop agree with exact arithmetic when both ranges end within 64 bits. |
| `Ranges.GridAt` | crates/protocol-native-v1/src/chunk.rs:31-36 | Chunk k starts at k times the chunk size and is full except possibly the last; none is empty. |
| `Ranges.GridCovers` | crates/protocol-native-v1/src/chunk.rs:27-39 | The planned chunks cover exactly the bytes of the file. |
| `Ranges.GridCount` | crates/protocol-native-v1/src/chunk.rs:27-39 | The number of planned chunks is the file size over the chunk size, rounded up. |
| `Ranges.PlanChunks` | crates/protocol-native-v1/src/chunk.rs:27-39 | The loop yields that grid and fails only for chunk size zero. |
| `Ranges.MissingMembers` | crates/protocol-native-v1/src/chunk.rs:42-53 | A grid chunk is in the missing plan if and only if some byte of it is uncovered. |
| `Ranges.MissingByCover` | crates/protocol-native-v1/src/chunk.rs:42-53 | The plan depends only on which bytes are covered, so it may be computed from merged ranges. |
| `Ranges.InsideOneIffWhole` | crates/protocol-native-v1/src/chunk.rs:112-120 | In canonical ranges a non-empty range lies inside a single one of them if and only if every byte of it is covered. |
| `Ranges.FullyCoveredIffWhole` | crates/protocol-native-v1/src/manifest.rs:388-393 | The checked and the unchecked containment test both decide whether every byte of the range is covered, when all ends fit. |
| `Ranges.ValidateRanges` | crates/protocol-native-v1/src/chunk.rs:77-89 | Verified ranges are accepted if and only if all are non-empty and inside the file; otherwise the error is that of the first bad one. |
| `Ranges.PlanMissingChunks` | crates/protocol-native-v1/src/chunk.rs:42-53 | The checked plan is the exact missing plan; it fails if and only if a range is invalid or the chunk size is zero. |
| `Ranges.MissingRangesFor` | crates/protocol-native-v1/src/manifest.rs:343-362 | The unchecked plan lists the grid chunks its wrapping test does not find covered, and whenever every recorded range ends within 64 bits that is the same exact missing plan. |
| `Ranges.MergedIsWholeFile` | crates/protocol-native-v1/src/chunk.rs:56-63 | Merging to the single range of the whole file means that exactly the bytes of the file are covered. |
| `Ranges.RangesCoverFile` | crates/protocol-native-v1/src/chunk.rs:56-63 | Completeness is reported if and only if every byte of the file is covered; the call fails if and only if a range is invalid. |
| `Ranges.RangesCover` | crates/protocol-native-v1/src/manifest.rs:395-400 | For ranges that end within 64 bits, the unchecked completeness test is true if and only if the file is empty or exactly its bytes are covered; inside the file that means every byte is. |
| `Manifest.StoredRoundTrip` | crates/protocol-native-v1/src/manifest.rs:177-187 | Casting a 64-bit value to the signed column subtracts 2^64 from 2^63 on; casting back is the identity, and different values stay different keys. |
| `Manifest.UpsertMembers` | crates/protocol-native-v1/src/manifest.rs:184-189 | Replacing by primary key keeps exactly the rows at other offsets and adds the new one. |
| `Manifest.UpsertCover` | crates/protocol-native-v1/src/manifest.rs:184-189 | After a replacement a byte is covered if and only if the new range or a row at another offset covers it. |
| `Manifest.CreateValid` | crates/protocol-native-v1/src/manifest.rs:118-163 | Creating a transfer keeps the store well-formed: distinct file ids, ordered rows, every range inside its file. |
| `Manifest.NewTransferFiles` | crates/protocol-native-v1/src/manifest.rs:247-269 | The stored files are a permutation of the offered ones in id order, with distinct ids. |
| `Manifest.RecordValid` | crates/protocol-native-v1/src/manifest.rs:166-196 | Recording a chunk, accepted or refused, keeps the store well-formed; in particular no recorded range leaves its file. |
| `Manifest.SetStateValid` | crates/protocol-native-v1/src/manifest.rs:214-230 | Changing the state keeps the store well-formed. |
| `Manifest.ManifestStore.CreateTransfer` | crates/protocol-native-v1/src/manifest.rs:118-163 | Succeeds if and only if id and peer are not blank, there are files with distinct ids and the transfer is new; the store then gains one pending transfer with exactly the offered files, ids ascending, and no chunk rows, and is otherwise unchanged. |
| `Manifest.ManifestStore.InsertFiles` | crates/protocol-native-v1/src/manifest.rs:152-159 | The insert loop yields a row per offer in order, or rolls back if and only if two offers share a key. |
| `Manifest.ManifestStore.RecordVerifiedChunk` | crates/protocol-native-v1/src/manifest.rs:166-196 | Succeeds if and only if the chunk is not empty and lies inside a known file; exactly its bytes and those of the old rows at other offsets are then covered, other files, rows and transfers are unchanged, and a refusal changes nothing. |
| `Manifest.ManifestStore.MissingRanges` | crates/protocol-native-v1/src/manifest.rs:199-211 | Returns the exact missing plan of the stored rows; fails if and only if the chunk size is zero or the file is unknown. |
| `Manifest.ManifestStore.IsComplete` | crates/protocol-native-v1/src/manifest.rs:272-289 | True if and only if the transfer has files and every byte of each is covered by its rows. |
| `Manifest.ManifestStore.CoversStored` | crates/protocol-native-v1/src/manifest.rs:272-289 | One file of a stored transfer is judged complete if and only if its rows cover it. |
| `Manifest.ManifestStore.ChangeState` | crates/protocol-native-v1/src/manifest.rs:214-230 | Succeeds if and only if the transfer is known and, to be completed, has every byte recorded; only its state then changes, and a refusal changes nothing. |
| `Runs.AcceptReopens` | crates/protocol-native-v1/src/transfer.rs:268-293 | Accepting succeeds exactly for an unblocked, trusted peer and a request with a non-blank id, files, non-blank distinct file ids and non-blank names; it makes a known transfer active again with its files and rows kept, even a completed one, or starts a new one with the offered files and no rows, and changes nothing else. |
| `Runs.RefusedChunk` | crates/protocol-native-v1/src/transfer.rs:307-341 | A refused chunk changes neither manifest nor inbox nor any other part, and one refused for its digest changes nothing. |
| `Runs.RefusedChunkKeepsIff` | crates/protocol-native-v1/src/transfer.rs:307-341 | A refused chunk changes nothing if and only if it was refused for its data or digest, its part has no lasting path, or the part already held those bytes there. |
| `Runs.RefusedChunkWrites` | crates/protocol-native-v1/src/transfer.rs:327-339 | Every chunk that ends past its file is refused, yet has been written: the part is then longer than the file. |
| `Publishing.FinishMarks` | crates/protocol-native-v1/src/transfer.rs:366-397 | The state after a finish: interrupted when bytes are missing, completed when all files moved, unchanged on a missing part or a name it cannot give, and failed only on a wrong length or digest; files of the transfer, rows and other transfers never change. FinishFailsAt says which failure is which. |
| `Publishing.FinishFailsAt` | crates/protocol-native-v1/src/transfer.rs:373-387 | For a complete transfer whose first unverified file is given: without its part nothing changes and the part is reported missing; with a part of another length the length is reported, otherwise the digest, and exactly the state becomes failed. |
| `Publishing.FirstCheckFails` | crates/protocol-native-v1/src/transfer.rs:373-387 | The checks report what the first file that is not verified, in stored order, is refused for. |
| `Runs.StepValid` | crates/protocol-native-v1/src/transfer.rs:268-397 | Accepting, receiving, finishing, and either cut short, all keep the manifest well-formed. |
| `Runs.RunValid` | crates/protocol-native-v1/src/transfer.rs:268-397 | The manifest is well-formed after any run of events. |
| `Runs.ReachableRangesFit` | crates/protocol-native-v1/src/manifest.rs:321-341 | In every reachable manifest all recorded ranges lie inside their file and end within 64 bits, so the unchecked arithmetic never wraps. |
| `Progress.PlannedReachesFurther` | crates/protocol-native-v1/src/manifest.rs:343-362 | A row that a planned chunk replaces ends before that chunk does. |
| `Progress.PlannedChunkProgresses` | crates/protocol-native-v1/src/manifest.rs:184-189 | Recording a planned chunk uncovers no byte and strictly lowers the number of uncovered bytes, although a row may be replaced. |
| `Progress.RecordAllGrows` | crates/protocol-native-v1/src/manifest.rs:184-189 | Recording a list of such chunks one after another keeps all old coverage and adds all of theirs. |
| `Progress.PlanCompletes` | crates/protocol-native-v1/src/manifest.rs:343-362 | Recording the whole missing plan, for any chunk size, makes the file complete. |
| `Progress.UnplannedChunkCanUncover` | crates/protocol-native-v1/src/manifest.rs:184-189 | A concrete chunk outside the plan whose recording loses a covered byte. |
| `Progress.RecordKeepsCoverIff` | crates/protocol-native-v1/src/manifest.rs:184-189 | Recording a chunk keeps all coverage if and only if whatever its predecessor at that offset covered beyond it is covered by another row. |
| `Names.NumberedInjective` | crates/protocol-native-v1/src/transfer.rs:418-423 | Alternatives with different numbers are different names. |
| `Names.NumberedDiffers` | crates/protocol-localsend-v2/src/inbox.rs:148-156 | A numbered alternative never equals the name itself. |
| `Names.NumberedBeforeExtension` | crates/protocol-native-v1/src/transfer.rs:415-423 | With an extension the number goes in parentheses between the stem and the last dot. |
| `Names.NumberedAtEnd` | crates/protocol-native-v1/src/transfer.rs:415-423 | Without an extension, also for a name whose only dot is its first character, the number goes at the end. |
| `Names.SafeNameIff` | crates/protocol-native-v1/src/transfer.rs:439-449 | A name is usable if and only if it has no separator, is not a dot entry and is not blank; what is used is the name without white space at its ends. |
| `Text.DecimalValue` | crates/protocol-native-v1/src/transfer.rs:418-423 | The numeral printed for a number has only decimal digits, no leading zero, and stands for that number. |
| `Text.TrimCuts` | crates/protocol-native-v1/src/transfer.rs:445-445 | Trimming cuts white space off both ends and leaves none at either end. |
| `Text.BlankIff` | crates/protocol-native-v1/src/dto.rs:156-179 | A string counts as blank if and only if it is white space throughout. |
| `Text.WhitespaceTable` | crates/protocol-native-v1/src/transfer.rs:445-445 | White space is exactly the 25 code points of the Unicode White_Space property. |
| `Text.LeFirstDifference` | crates/protocol-native-v1/src/manifest.rs:247-269 | In the order of ids a prefix comes first and otherwise the first difference decides. |
| `Names.Pigeonhole` | crates/protocol-localsend-v2/src/inbox.rs:142-165 | If the first k alternatives of a taken name all exist, the directory has more than k entries. |
| `Names.AvailableTarget` | crates/protocol-native-v1/src/transfer.rs:408-430 | The probing loop returns what the search specified by NativeSearch returns. |
| `Names.NativeSearch` | crates/protocol-native-v1/src/transfer.rs:408-449 | A usable name gets its first alternative that does not exist; the search fails if and only if the name and its alternatives 1 to 9999 all exist, which takes at least 10000 entries. |
| `Names.NextAvailableTarget` | crates/protocol-localsend-v2/src/inbox.rs:142-165 | The result is the name or its first numbered alternative that does not exist, found within one probe more than there are entries; the search fails only in a directory of at least 2^32 names. |
| `Receiver.WriteAtByte` | crates/protocol-native-v1/src/transfer.rs:327-331 | A seek and write extends the file with zeros as needed, sets exactly the written bytes and keeps all others. |
| `Receiver.CleanKeepsExactly` | crates/protocol-native-v1/src/transfer.rs:451-456 | Cleaning works character by character: ASCII letters, digits, dash and underscore stay, everything else goes. |
| `Receiver.PartPathSafe` | crates/protocol-native-v1/src/transfer.rs:399-405 | Both components of a part path consist of those characters only and are not empty; an id has no lasting path if and only if it contains none of them. |
| `Receiver.PlanForEntry` | crates/protocol-native-v1/src/transfer.rs:354-363 | The resume plan has an entry for every file, its exact missing plan. |
| `Receiver.NativeTransferReceiver.AcceptTransfer` | crates/protocol-native-v1/src/transfer.rs:268-293 | The new state and result are those of accepting: policy and peer checks first, then creation or reactivation. |
| `Receiver.NativeTransferReceiver.Receive` | crates/protocol-native-v1/src/transfer.rs:307-341 | The new state and result are those of receiving a chunk, bytes being written before the range is checked, to the part path that PartPathSafe describes. |
| `Receiver.NativeTransferReceiver.ResumePlan` | crates/protocol-native-v1/src/transfer.rs:354-363 | Returns the plan of the current rows and changes nothing. |
| `Receiver.NativeTransferReceiver.Check` | crates/protocol-native-v1/src/transfer.rs:373-387 | The verification loop stops at the first file whose part is missing or whose length or digest is wrong, with the error that FirstCheckFails and FinishFailsAt state, and changes no file. |
| `Receiver.NativeTransferReceiver.Publish` | crates/protocol-native-v1/src/transfer.rs:389-394 | The moving loop moves files in order up to the first that has no name. |
| `Receiver.NativeTransferReceiver.FinishTransfer` | crates/protocol-native-v1/src/transfer.rs:366-397 | The new disk, inbox, manifest and result are those of Finish: when it succeeds is FinishSucceedsIff, and which failure it reports and records is FinishFailsAt and FinishMarks. |
| `Publishing.CheckMeansVerified` | crates/protocol-native-v1/src/transfer.rs:373-387 | The checks pass if and only if every part is on disk with its declared length and, where declared, its digest. |
| `Publishing.PublishDelivers` | crates/protocol-native-v1/src/transfer.rs:389-394 | Moving delivers a prefix of the files, each from its own part under a new name of its own, and all of them if and only if it ends without an error. |
| `Publishing.PublishNeedsDistinctParts` | crates/protocol-native-v1/src/transfer.rs:389-405 | Moving all files succeeds only if their part paths are pairwise different. |
| `Publishing.FinishVerifiesFirst` | crates/protocol-native-v1/src/transfer.rs:366-397 | From any state: nothing moves unless every file was verified, only verified parts enter the inbox, old entries stay, and success adds exactly one entry per file and completes the transfer. |
| `Publishing.FinishSucceedsIff` | crates/protocol-native-v1/src/transfer.rs:366-397 | A finish succeeds if and only if the transfer is complete, every file is verified, part paths are distinct and every name can be allocated in turn. |
| `Publishing.AllOrNoneIff` | crates/protocol-native-v1/src/transfer.rs:389-396 | A finish of a verified transfer moves all of its files or none if and only if its first file cannot be given a name, or all can in turn and no two share a part. |
| `Publishing.UsableNamesAllocate` | crates/protocol-native-v1/src/transfer.rs:408-430 | Usable names can all be allocated while existing entries and files together are at most 10000. |
| `Publishing.RefusedNameLeavesPrefix` | crates/protocol-native-v1/src/transfer.rs:389-394 | When any name of a verified transfer is refused the finish fails, and if the first file could be named then some files have been moved and not all. |
| `Publishing.StepPublishes` | crates/protocol-native-v1/src/transfer.rs:307-397 | In any state any event only adds inbox entries, and only a finish of a fully verified transfer adds one. |
| `Publishing.InboxOnlyGrows` | crates/protocol-native-v1/src/transfer.rs:366-397 | Over any run no inbox entry is changed or removed. |
| `Publishing.PublishedWasVerified` | crates/protocol-native-v1/src/transfer.rs:307-397 | Over any run of arbitrary events every new inbox entry appeared at some step, under that name and with that content, moved from a part of a transfer all of whose files were verified at that step. |
| `NoHoles.LastWriter` | crates/protocol-native-v1/src/transfer.rs:315-331 | The index found is an event that writes that byte and no later event does; without one no event does at all. |
| `NoHoles.DiskHoldsLastWrite` | crates/protocol-native-v1/src/transfer.rs:315-331 | While a part is not moved, each byte on disk is the one its last accepted write put there. |
| `NoHoles.RecordedWasWritten` | crates/protocol-native-v1/src/manifest.rs:166-196 | Every byte inside a recorded range was written by some chunk whose digest check passed. |
| `NoHoles.RecordedBytesAreOnDisk` | crates/protocol-native-v1/src/transfer.rs:315-340 | Until the part is moved, every recorded byte is on disk as last written by a digest-checked chunk, and of the same file if cleaned ids are distinct. |
| `NoHoles.CompleteFileHasNoGap` | crates/protocol-native-v1/src/manifest.rs:272-289 | Until the part is moved, a file judged complete has every byte on disk from a digest-checked chunk: no zero-filled gap. |
| `NoHoles.RowsOutliveParts` | crates/protocol-native-v1/src/transfer.rs:282-290 | After a successful finish the transfer still counts as complete and another finish fails on a missing part. |
| `Sender.NativeTransferSender.PrepareRequest` | crates/protocol-native-v1/src/transfer.rs:80-93 | Offers every source in order under its numbered id, its own name, its size and the digest of its bytes. |
| `Sender.NativeTransferSender.SendFile` | crates/protocol-native-v1/src/transfer.rs:95-125 | Sends the ranges in order as slices of the source until one fails. |
| `Sender.NativeTransferSender.RangesToSend` | crates/protocol-native-v1/src/transfer.rs:95-125 | The planned ranges of a file, exactly, or what the manifest still misses when the plan has none. |
| `Sender.NativeTransferSender.SendPlanned` | crates/protocol-native-v1/src/transfer.rs:95-125 | Sends every file in order until one fails. |
| `Sender.NativeTransferSender.ResumeFiles` | crates/protocol-native-v1/src/transfer.rs:66-78 | The receiver ends up as after Resume: one plan, the planned ranges, one finish. |
| `Sender.ResumeRefuses` | crates/protocol-native-v1/src/transfer.rs:66-78 | A resume with another number of paths than files, or without a chunk size for a transfer with files, fails and changes nothing. |
| `Sender.NativeTransferSender.SendFiles` | crates/protocol-native-v1/src/transfer.rs:40-59 | The receiver ends up as after Send: no chunk size and no paths are refused, then one accept, all ranges at the accepted chunk size, one finish. SendDelivers says what that achieves. |
| `ResumeCorrect.FileIdInjective` | crates/protocol-native-v1/src/transfer.rs:85-85 | Sender-made ids are pairwise distinct. |
| `ResumeCorrect.OfferedPart` | crates/protocol-native-v1/src/transfer.rs:399-405 | A sender-made id passes the cleaning of CleanKeepsExactly unchanged, so it keeps its own part path. |
| `ResumeCorrect.OfferedPartsDistinct` | crates/protocol-native-v1/src/transfer.rs:399-461 | All files of a sender-made request have different part paths. |
| `ResumeCorrect.TornKeepsProgress` | crates/protocol-native-v1/src/transfer.rs:327-331 | A true slice written without being recorded leaves disk and rows consistent with the sources. |
| `ResumeCorrect.HonestReceive` | crates/protocol-native-v1/src/transfer.rs:307-341 | A true slice is accepted, keeps disk and rows consistent with the sources and replaces exactly its row. |
| `ResumeCorrect.HonestSend` | crates/protocol-native-v1/src/transfer.rs:95-125 | Sending the current plan, file by file, succeeds and completes every file. |
| `ResumeCorrect.CompletePart` | crates/protocol-native-v1/src/transfer.rs:373-387 | A complete non-empty file is on disk equal to its source; it is verified if and only if the source is not empty. |
| `ResumeCorrect.DeliveredSources` | crates/protocol-native-v1/src/transfer.rs:389-394 | Published parts are one new inbox entry per source, named after it and equal to it. |
| `ResumeCorrect.FinishDelivers` | crates/protocol-native-v1/src/transfer.rs:366-397 | Once all files are complete, a finish succeeds if and only if no source is empty and all names can be allocated, and then delivers every source. |
| `ResumeCorrect.ResumeDelivers` | crates/protocol-native-v1/src/transfer.rs:66-78 | The same for a resume from any state consistent with the sources, with any positive chunk size. |
| `Interruptions.SendDelivers` | crates/protocol-native-v1/src/transfer.rs:40-59 | A whole send in one go succeeds if and only if the sender's chunk size and the receiver's are positive, the receiver accepts, no source is empty and every file can be given a name, and then the transfer is completed and every source is in the inbox under its name, byte for byte. |
| `Interruptions.HonestStep` | crates/protocol-native-v1/src/transfer.rs:268-397 | Accepts, true slices, torn writes, early finishes and other transfers all keep the transfer consistent with its sources. |
| `Interruptions.HonestRunKeeps` | crates/protocol-native-v1/src/transfer.rs:268-397 | So does any run of them. |
| `Interruptions.AcceptStarts` | crates/protocol-native-v1/src/transfer.rs:268-293 | Accepting a fresh transfer starts it consistent with its sources. |
| `Interruptions.ResumeAfterInterruptions` | crates/protocol-native-v1/src/transfer.rs:66-125 | End to end: accept, any such run, one resume; it succeeds if and only if no source is empty and all names can be allocated, and then the transfer is completed and every source is in the inbox under its name, byte for byte. |
| `Interruptions.ResumeAfterTornFinish` | crates/protocol-native-v1/src/transfer.rs:366-397 | Resuming after a finish cut off at any point succeeds if and only if no source is empty, all names can be allocated, and the cut came before any move or the transfer was not complete; if anything was moved it fails on the missing part. |
| `Interruptions.CutFinishStaysStuck` | crates/protocol-native-v1/src/transfer.rs:366-397 | Once a finish was cut off behind its first move, every resume fails on the missing part after any run that sends none of the transfer's chunks again. |
| `Interruptions.UsableSourcesAllocate` | crates/protocol-native-v1/src/transfer.rs:408-449 | Usable file names and an inbox with room for them are enough for the naming condition. |
| `Utf8.EncodeDecode` | crates/protocol-native-v1/src/transfer.rs:210-213 | Decoding an encoded string gives it back. |
| `Utf8.DecodeEncode` | crates/protocol-native-v1/src/transfer.rs:210-213 | Whatever decodes to a string is its one encoding. |
| `Utf8.EncodedBits` | crates/protocol-native-v1/src/transfer.rs:210-213 | The payload bits of an encoded character, six to a continuation byte, spell its code point. |
| `Utf8.AsciiBytes` | crates/protocol-native-v1/src/transfer.rs:210-213 | ASCII text is encoded one byte to a character, by its code. |
| `Wire.ChunkRoundTrip` | crates/protocol-native-v1/src/transfer.rs:151-233 | A written frame of at most 8 MiB (0x800000 bytes of payload) followed by anything reads back as that chunk and leaves exactly what followed. |
| `Wire.ReadConsumesFrame` | crates/protocol-native-v1/src/transfer.rs:193-233 | Any successful read consumed exactly the frame of the chunk it returned, whose digest matches its data. |
| `Wire.DecodedWasWritten` | crates/protocol-native-v1/src/transfer.rs:151-233 | A chunk that was read can be written if and only if its data is not empty and its id not blank, and then the bytes read were exactly what would be written. |
| `Wire.StreamRoundTrip` | crates/protocol-native-v1/src/transfer.rs:151-233 | Any sequence of sendable chunks followed by anything reads back as that sequence and leaves exactly what followed. |
| `Wire.FrameLayout` | crates/protocol-native-v1/src/transfer.rs:151-190 | Where the fields of a frame are: four bytes of length, two of id length, the id, eight of offset, 64 of digest, four of data length, the data. |
| `Wire.BeByte` | crates/protocol-native-v1/src/transfer.rs:151-190 | Byte i of a number on the wire, counted from the most significant, is that digit of it to base 256. |
| `Wire.ControlRoundTrip` | crates/protocol-native-v1/src/framing.rs:45-103 | A written control message followed by anything reads back as that message and leaves exactly what followed. |
| `Wire.ControlReadSound` | crates/protocol-native-v1/src/framing.rs:64-103 | Any control message read was framed with its own tag, within the size limit, and nothing more was consumed. |
| `Wire.TagNumbers` | crates/protocol-native-v1/src/framing.rs:105-116 | The eight message kinds have the tags 1 to 8 in their order. |
| `Wire.ControlWrittenIff` | crates/protocol-native-v1/src/framing.rs:45-62 | A message is written if and only if its payload can be encoded in fewer than 2^20 bytes. |
| `ByteStreams.ByteStream.WriteChunkFrame` | crates/protocol-native-v1/src/transfer.rs:151-190 | Appends exactly the chunk's frame or, on the first failing check, nothing. |
| `ByteStreams.ByteStream.ReadChunkFrame` | crates/protocol-native-v1/src/transfer.rs:193-233 | Reads field by field exactly what ReadChunk specifies, with its errors in the same order; what is left is always an end of what was there. |
| `SessionChunks.DeclaredBytesIff` | crates/daemon/src/main.rs:774-786 | The checked sum succeeds if and only if the declared sizes add up to at most the cap, and is their sum. |
| `SessionChunks.SendFileChunks` | crates/protocol-native-v1/src/client.rs:149-173 | The loop sends the grid slices of the file in order with their digests and fails only for chunk size zero. |
| `SessionChunks.CountsAgree` | crates/daemon/src/main.rs:788-794 | The number of chunk frames the client writes equals the number the daemon expects, for any sources and chunk size. |
| `SessionChunks.StreamDistinct` | crates/protocol-native-v1/src/client.rs:149-173 | No two chunks of the stream have the same file and offset, so no stored row is replaced. |
| `SessionChunks.StreamSendable` | crates/protocol-native-v1/src/client.rs:149-173 | Every chunk of the stream passes the frame writer's checks and stays within the reader's limit. |
| `SessionChunks.ReceivedStored` | crates/daemon/src/main.rs:719-766 | After any prefix of the stream the transfer is consistent with its sources, nothing is published and every received chunk has its row. |
| `SessionChunks.NextAccepted` | crates/daemon/src/main.rs:742-755 | The next chunk of the stream is never refused. |
| `SessionChunks.StreamCompletes` | crates/daemon/src/main.rs:719-766 | When all rows of the stream are stored every file is complete. |
| `Session.NativeFramesCarry` | crates/protocol-native-v1/src/transfer.rs:151-233 | The native frame codec carries every chunk of the stream past whatever follows it. |
| `Session.FinishOutcome` | crates/daemon/src/main.rs:757-766 | Finishing after the whole stream succeeds if and only if the session is deliverable, and then delivers every source. |
| `Lockstep.ClientKeeps` | crates/protocol-native-v1/src/client.rs:108-147 | Each client step keeps both parties, both byte streams and the disk in step. |
| `Lockstep.DaemonKeeps` | crates/daemon/src/main.rs:644-766 | In an admissible session each daemon step keeps them in step. What the daemon does with a peer or request it must refuse is DaemonExplained and RefusedSessionTouchesNothing. |
| `Lockstep.AlwaysInStep` | crates/daemon/src/main.rs:719-794 | Under every schedule the parties stay in step: the client never fails and the daemon fails only when the transfer cannot be delivered. |
| `Lockstep.QuietMeansEnded` | crates/protocol-native-v1/src/client.rs:108-147 | When neither party can move, both are done and the files are delivered, or the daemon failed at its finish for want of deliverability: no deadlock in between. |
| `Lockstep.CanAlwaysEnd` | crates/protocol-native-v1/src/client.rs:108-147 | From any point of any schedule, at most as many further turns as are left bring the session to an end in which neither party can move. |
| `Schedules.MovesBounded` | crates/protocol-native-v1/src/client.rs:108-147 | Two parties whose moves lower a measure make no more moves, in any schedule, than the measure at the start. |
| `Schedules.FairSchedulesRest` | crates/protocol-native-v1/src/client.rs:108-147 | As many rounds with a turn for both as the measure at the start bring such parties to rest. |
| `Lockstep.MovesBounded` | crates/daemon/src/main.rs:719-766 | No schedule of a session of n chunks contains more than 2n + 12 moves. |
| `Lockstep.FairSchedulesEnd` | crates/daemon/src/main.rs:719-766 | Every schedule with that many rounds in which both parties get a turn brings the session to its end. |
| `Lockstep.SessionDelivers` | crates/daemon/src/main.rs:719-794 | The whole admissible session with native frames, for a new transfer or an interrupted one: never a frame of the wrong kind, always able to end, and at its end both Done messages were exchanged and every file is delivered if and only if it is deliverable. Sessions that must be refused are RefusedSessionTouchesNothing. |
| `Lockstep.FairSessionDelivers` | crates/daemon/src/main.rs:719-794 | Every fair schedule of a deliverable session ends with both sides done and every source in the inbox under its name, byte for byte. |
| `Guards.DaemonExplained` | crates/daemon/src/main.rs:644-766 | For any bytes in any pieces from the client: the disk is untouched until the daemon read a hello it admits and a request within the cap that the receiver accepts; it is then that of the accept and the chunks read, a refused chunk being the last, and finished only on a Done for that transfer after exactly the expected chunks, all accepted; answers are written in that order. |
| `Guards.UnadmittedTouchNothing` | crates/daemon/src/main.rs:659-675 | If no hello is admitted, then for any bytes the disk is as it was and the daemon waits for a hello or has failed. |
| `Guards.FinishedWasAsked` | crates/daemon/src/main.rs:757-766 | The daemon never completes a transfer on a Done for another one, nor before the expected number of chunks. |
| `Guards.RefusedSessionTouchesNothing` | crates/daemon/src/main.rs:665-733 | Under every schedule of both parties, when the hello is not admitted, the declared bytes pass the cap or the receiver does not accept: the disk is as it was, no accept is written and no chunk sent; without admission the daemon waits for the hello or has failed. |
| `Guards.ClientJustified` | crates/protocol-native-v1/src/client.rs:108-147 | For any bytes in any pieces from the daemon: the client sends its request only after an acknowledgement and chunks only after an accept of this transfer, at the accepted size, and reports success only after all chunks, its Done, and a Done for this transfer. |
| `Registry.PeerRegistry.RegisterPeer` | crates/rendezvous/src/registry.rs:40-61 | Replaces the entry under its key with the capped time to live, keeping its queue; an invalid request changes nothing. RegisterIff and AnsweredTtl say which requests are valid and what the cap is. |
| `Registry.RegisterIff` | crates/rendezvous/src/protocol.rs:84-124 | A registration is accepted if and only if it has a non-blank alias, a positive time to live and at least one candidate, all with a usable address; otherwise nothing changes. |
| `Registry.AnsweredTtl` | crates/rendezvous/src/registry.rs:124-127 | The answered time to live is at most the requested one and at most the cap, and reaches the smaller of the two in whole seconds. |
| `Registry.PeerRegistry.PruneExpired` | crates/rendezvous/src/registry.rs:112-122 | Removes exactly the expired entries and their queues and returns how many. |
| `Registry.PeerRegistry.LookupPeer` | crates/rendezvous/src/registry.rs:64-69 | Prunes, and returns and touches the entry under the key, if any. |
| `Registry.PeerRegistry.QueueNotify` | crates/rendezvous/src/registry.rs:81-96 | Prunes and appends to the target's queue if and only if the target has an entry. |
| `Registry.PeerRegistry.DrainNotifications` | crates/rendezvous/src/registry.rs:99-109 | Prunes, returns the queue of the key and empties it. |
| `Registry.RunRefines` | crates/rendezvous/src/registry.rs:40-127 | After any history with a monotone clock the table holds exactly the latest valid registration of a key, if not yet pruned as expired. |
| `Registry.LookupIsLatest` | crates/rendezvous/src/registry.rs:64-69 | After any history a lookup returns the latest valid registration if and only if now is before its time plus the requested seconds and before its time plus the cap, whenever pruning happened. |
| `Registry.QueuesBelongToEntries` | crates/rendezvous/src/registry.rs:81-122 | After any history every queue belongs to an entry. |
| `Registry.QueueIsPending` | crates/rendezvous/src/registry.rs:81-122 | A queue holds, in order, what was queued for the key since its last drain or pruning; registering again keeps it. |
| `Registry.DrainReturnsPending` | crates/rendezvous/src/registry.rs:99-109 | A drain returns exactly that if the registration is still live, and nothing otherwise. |
| `Registry.NotificationsConserved` | crates/rendezvous/src/registry.rs:81-122 | In order, everything ever queued for a key is what was drained or discarded by pruning followed by what is pending. |
| `Uploads.ValidateFileIds` | crates/protocol-localsend-v2/src/session.rs:161-175 | Accepts if and only if every map key equals the id in its metadata. |
| `Uploads.SessionManager.PrepareSession` | crates/protocol-localsend-v2/src/session.rs:61-81 | Stores a session with one token per file, not yet uploaded, that runs out after the time to live, and hands back exactly those tokens or, for mismatched ids, changes nothing. |
| `Uploads.IssueTokens` | crates/protocol-localsend-v2/src/session.rs:68-72 | The loop issues one token for each file, stores it with the metadata as not yet uploaded, and hands it back. |
| `Uploads.SessionManager.AuthorizeUpload` | crates/protocol-localsend-v2/src/session.rs:84-110 | Prunes and returns the metadata or the error of the first failing check. |
| `Uploads.SessionManager.MarkUploaded` | crates/protocol-localsend-v2/src/session.rs:113-123 | Prunes and marks the file uploaded, or reports the unknown session or file. |
| `Uploads.SessionManager.CancelSession` | crates/protocol-localsend-v2/src/session.rs:126-131 | Removes exactly that session and those that ran out, and reports whether it was there and had not run out. |
| `Uploads.SessionManager.SessionIdForFile` | crates/protocol-localsend-v2/src/session.rs:134-141 | Returns the least live session id that has the file, and none if and only if none has it. |
| `Uploads.SessionManager.CancelAll` | crates/protocol-localsend-v2/src/session.rs:144-149 | Removes every session and counts them. |
| `Uploads.SessionManager.PruneExpired` | crates/protocol-localsend-v2/src/session.rs:177-182 | The retain loop keeps exactly the sessions that have not run out, unchanged, and counts the others. |
| `Uploads.RunAgrees` | crates/protocol-localsend-v2/src/session.rs:61-182 | After any history with a monotone clock the stored sessions agree with the grants of that history. |
| `Uploads.AuthorizedIffGranted` | crates/protocol-localsend-v2/src/session.rs:84-110 | An upload is authorized if and only if the history grants that token for that file and it has not expired; the metadata returned is what was granted. |
| `Uploads.GrantWasPrepared` | crates/protocol-localsend-v2/src/session.rs:61-149 | A grant comes from an earlier prepare with that token and metadata, and no later cancel, cancel-all, timely mark of that file or valid prepare of that session withdrew it. |
| `Uploads.PreparedIsGranted` | crates/protocol-localsend-v2/src/session.rs:61-149 | Conversely, a prepare that nothing later withdrew is the grant. |
| `Uploads.AuthorizedIffPrepared` | crates/protocol-localsend-v2/src/session.rs:84-110 | An upload is authorized if and only if some prepare in the history issued that token for that file, its time has not run out and no later event withdrew it; the metadata is that of the prepare. |
| `Trust.NormalizeTwice` | crates/core/src/trust/store.rs:527-537 | Normalizing a fingerprint twice changes nothing, for any lower-casing whose output is already lower-case and never a separator. |
| `Trust.NormalizeByCharacter` | crates/core/src/trust/store.rs:527-537 | Normalizing works character by character: colons and dashes go, the rest is lower-cased. |
| `Trust.AsciiLowers` | crates/core/src/trust/store.rs:527-537 | Lower-casing ASCII letters, each to its small letter and nothing else, is such a lower-casing. |
| `Trust.UploadGate.AuthorizePrepareUpload` | crates/protocol-localsend-v2/src/server.rs:277-324 | Automatic policy always accepts, prompting always refuses, and neither touches the store; the trusted policy refuses a fingerprint that normalizes to nothing and changes nothing then, and otherwise decides and records as Gate does, or by the static lists alone without a store. |
| `Trust.UploadGate.Decide` | crates/core/src/trust/store.rs:466-493 | A decision sets the status of the normalized fingerprint, creating the row if needed, or changes nothing on error. |
| `Trust.GateRow` | crates/protocol-localsend-v2/src/server.rs:277-381 | What one attempt does to a row: it never changes a status, creates a row only for an unknown peer, is refused exactly when the peer is neither listed nor trusted, and counts one exactly when it is refused while not blocked. |
| `Trust.SightedRow` | crates/core/src/trust/store.rs:265-325 | The row an attempt with an alias leaves: seen now under that alias and, if given, that address; first sighting and label are kept, and no other row changes. |
| `Trust.DecidedRow` | crates/core/src/trust/store.rs:466-493 | The row a decision leaves: its status and time and, if not blank, its label; everything else is kept, and no other row changes. |
| `Trust.RunAgrees` | crates/core/src/trust/store.rs:265-325 | After any history the stored status and attempt count equal those computed from the history. |
| `Trust.GateAccepts` | crates/protocol-localsend-v2/src/server.rs:277-324 | For any fingerprint, an attempt is accepted if and only if the fingerprint does not normalize to nothing, it gives an alias, and the fingerprint is listed or stored as trusted. |
| `Trust.UnnamedRefused` | crates/protocol-localsend-v2/src/server.rs:295-303 | An attempt whose fingerprint normalizes to nothing, or without an alias, is refused and leaves the store as it was. |
| `Trust.LatestDecisionRules` | crates/protocol-localsend-v2/src/server.rs:277-324 | After any history and for any fingerprint, an attempt is accepted if and only if the fingerprint does not normalize to nothing, it gives an alias, and the fingerprint is listed now, or its latest decision was approval, or it has none but was first seen while listed. |
| `Trust.UnlistedFollowsDecision` | crates/protocol-localsend-v2/src/server.rs:277-324 | For a fingerprint never listed, an attempt is accepted if and only if its latest decision was approval. |
| `Trust.AttemptsNeverDecide` | crates/core/src/trust/store.rs:265-325 | Attempts never change the status of a known peer, and its attempt count is the number of refusals in the sense of RefusalsAreRefused. |
| `Trust.RefusalsAreRefused` | crates/protocol-localsend-v2/src/server.rs:277-324 | An event raises the count by one if and only if it is an attempt with that fingerprint and an alias that the gate refuses while the peer is not blocked. |
| `Trust.ListedOnceStaysTrusted` | crates/protocol-localsend-v2/src/server.rs:326-381 | A peer first seen while listed is accepted after it left the list, without any decision. |
| `InboxWriters.InboxWriter.Stream` | crates/protocol-localsend-v2/src/inbox.rs:57-75 | Writes the body to the staging file and stops before it would pass the declared size. |
| `InboxWriters.InboxWriter.WriteUpload` | crates/protocol-localsend-v2/src/inbox.rs:38-98 | Succeeds exactly for a name that is not empty, not a dot entry and without separators, a body of the declared size and a matching digest, as long as names are left; then it adds one new entry, under the first free name, equal to the body, and removes the staging file. A failure leaves the inbox as it was. |
| `InboxWriters.SafeIdentifierChars` | crates/protocol-localsend-v2/src/inbox.rs:122-140 | In the name of a staging file every character other than ASCII letters, digits, dash and underscore becomes a dash. |
| `InboxWriters.StagingNameSafe` | crates/protocol-localsend-v2/src/inbox.rs:118-120 | The staging name of an upload with ids has no separator and ends in .part. |
| `InboxWriters.SameIgnoringCaseIff` | crates/protocol-localsend-v2/src/inbox.rs:88-92 | Digests match if and only if they differ at most in the case of ASCII letters. |
| `EventStream.Feed` | crates/webui/src/api.ts:146-160 | One read emits the frames of the buffered text and keeps its leftover. |
| `EventStream.StreamFrames` | crates/webui/src/api.ts:139-161 | However the text is cut into reads, the frames emitted and the leftover are those of the whole text. |
| `EventStream.SplitAppend` | crates/webui/src/api.ts:146-160 | Splitting a text and then its leftover with more text equals splitting both together. |
| `EventStream.SplitCharacterized` | crates/webui/src/api.ts:146-160 | The frames and leftover are the only way to write the text as frames, each ending at its leftmost blank line, and a rest without one. |
| `EventStream.FrameDelivered` | crates/webui/src/api.ts:151-155 | A frame of any lines hands over the values of its data lines, joined by line breaks, each without its leading blanks; lines of any other kind in between are passed over. |
| `EventStream.JoinTwo` | crates/webui/src/api.ts:151-155 | Joining puts exactly one line break between neighbours. |
| `EventStream.TrimStartDrops` | crates/webui/src/api.ts:153-153 | The blanks dropped are exactly the leading ones. |
| `EventStream.ScriptSpaceTable` | crates/webui/src/api.ts:153-153 | The blanks are exactly the white space and line terminators of ECMAScript. |
| `EventStream.DataDelivered` | crates/webui/src/api.ts:151-155 | Any payload lines sent as data lines come back joined by line breaks, each without its leading blanks. |
| `EventStream.DataRoundTrip` | crates/webui/src/api.ts:151-155 | Payload lines sent as data lines come back unchanged if and only if none of them starts with a blank. |
| `Stun.MappedRoundTrip` | crates/protocol-native-v1/src/stun.rs:94-116 | Decoding an address masked with the magic cookie gives the endpoint back. |
| `Stun.ParseBindingResponse` | crates/protocol-native-v1/src/stun.rs:29-67 | The checks come in the same order and the loop over offsets computes the walk over the declared body, for every byte string. |
| `Stun.FindAddress` | crates/protocol-native-v1/src/stun.rs:51-66 | The loop over offsets never leaves the body and computes the walk over what is left. |
| `Stun.WalkFinds` | crates/protocol-native-v1/src/stun.rs:51-66 | Any padded attributes of other kinds are skipped and the first mapped address is parsed. |
| `Stun.WalkSound` | crates/protocol-native-v1/src/stun.rs:51-66 | Conversely, whatever the walk accepts decomposes into such attributes, a mapped address and a rest. |
| `Stun.PaddedLeast` | crates/protocol-native-v1/src/stun.rs:118-120 | The padded length is the least multiple of four that is not smaller. |
| `Stun.ParseInvertsEncoding` | crates/protocol-native-v1/src/stun.rs:29-67 | For any such attribute list, endpoint, rest of body and trailing bytes, the endpoint comes back (sections 6, 15 and 15.2 of RFC 5389). |
| `Stun.ParsedHadAddress` | crates/protocol-native-v1/src/stun.rs:29-67 | Every accepted response had that shape, and its endpoint is the decoded first mapped address. |
| `Stun.TrailingIgnored` | crates/protocol-native-v1/src/stun.rs:29-67 | Bytes after the declared body do not matter. |
| `Stun.RequestIsNoResponse` | crates/protocol-native-v1/src/stun.rs:19-26 | A binding request has twenty bytes and is never accepted as a response. |
| `Stun.RequestLayout` | crates/protocol-native-v1/src/stun.rs:19-26 | The bytes of a request: type 0x0001, no body, the magic cookie 0x2112A442, the transaction id. |
| `Stun.ResponseLayout` | crates/protocol-native-v1/src/stun.rs:29-67 | The bytes of the response that ParseInvertsEncoding is about: type 0x0101, the body length, the cookie, the transaction id, then attribute 0x0020 with its length. |
| `Bits.XorBit` | crates/protocol-native-v1/src/stun.rs:94-116 | A bit of an exclusive or is set if and only if the operands differ there. |
| `Candidates.DedupeCandidates` | crates/protocol-native-v1/src/candidates.rs:94-105 | The loop with its set of seen endpoints computes the first-occurrence list that DedupeKeeps describes. |
| `Candidates.DedupeKeeps` | crates/protocol-native-v1/src/candidates.rs:94-105 | Every kept candidate was in the input, every input endpoint is kept, and no endpoint is kept twice. |
| `Candidates.DedupeIsFirsts` | crates/protocol-native-v1/src/candidates.rs:94-105 | What is kept is, in order, exactly the first candidate of each kind and address. |
| `Candidates.SortCandidates` | crates/protocol-native-v1/src/candidates.rs:108-112 | The array becomes the only sorted arrangement of its elements: higher priorities first, at equal priority local before server-reflexive, then by address. |
| `Candidates.CandidateOrder` | crates/protocol-native-v1/src/candidates.rs:108-119 | Priority descending, then kind, then address is a total order in which only equal candidates tie. |
| `Candidates.AddrOrder` | crates/protocol-native-v1/src/candidates.rs:108-119 | IPv4 comes before IPv6; then address, port, flow label and scope decide in turn. |
| `Candidates.GatheredDeterminedIff` | crates/protocol-native-v1/src/candidates.rs:94-112 | Deduplicating and sorting gives the same list for every permutation of the input if and only if equal endpoints carry equal priorities. |
| `Candidates.PackingIsLexicographic` | crates/protocol-native-v1/src/hole_punch.rs:187-189 | Comparing packed priorities is comparing (local, remote) lexicographically, and packing is injective. |
| `Candidates.CombinedPriority` | crates/protocol-native-v1/src/hole_punch.rs:187-189 | Shifting and or-ing is exact: it gives local times 2^32 plus remote. |
| `Candidates.CandidatePairs` | crates/protocol-native-v1/src/hole_punch.rs:67-85 | The nested loops and the stable sort compute the sorted product that PairListDetermined describes. |
| `Candidates.ProductAt` | crates/protocol-native-v1/src/hole_punch.rs:67-80 | Position i times the number of remotes plus j of the cross product pairs local i with remote j, and there is nothing else. |
| `Candidates.PairListDetermined` | crates/protocol-native-v1/src/hole_punch.rs:67-85 | A list is the pair list if and only if it is a permutation of the cross product, ordered by local then remote priority descending and then by remote address, with ties in product order. |
| `Sorting.SortedUnique` | crates/protocol-native-v1/src/candidates.rs:108-112 | Two sorted permutations under an order without distinct ties are equal. |
| `Sorting.StableUnique` | crates/protocol-native-v1/src/hole_punch.rs:81-83 | Two sorted permutations that keep equivalent elements in the same order are equal. |
| `Sorting.SortStable` | crates/protocol-native-v1/src/hole_punch.rs:81-83 | Sorting keeps the order of equivalent elements. |
| `Publishing.TargetsNamed` | crates/protocol-native-v1/src/transfer.rs:408-430 | Each moved file is under its own cleaned name or one of its numbered alternatives. |
| `Publishing.TargetsNotReserved` | crates/protocol-native-v1/src/transfer.rs:408-430 | No file is ever moved to a dot entry or over the staging directory. |
| `ResumeCorrect.PlacesNamed` | crates/protocol-native-v1/src/transfer.rs:389-394 | Each delivered source is under its own cleaned name or one of its numbered alternatives. |
| `Lockstep.TheDisks` | crates/daemon/src/main.rs:731-766 | The daemon accepts the transfer and every chunk of the stream in turn, and its finish fails exactly when the session is not deliverable. |
| `Witness.OneByteNative` | crates/protocol-native-v1/src/transfer.rs:151-233 | A concrete one-byte session uses the native framing as the session theorem assumes. |
| `Witness.OneByteAdmissible` | crates/daemon/src/main.rs:644-766 | That session meets every other assumption of the session theorem. |
| `Witness.OneByteDeliverable` | crates/daemon/src/main.rs:753-766 | It is also deliverable, so both messages of completion are reached. |
| `Witness.OneByteInterrupted` | crates/protocol-native-v1/src/transfer.rs:327-339 | Its chunk written but not recorded is one of the runs the resume theorem quantifies over. |
| `Witness.OneByteRetried` | crates/protocol-native-v1/src/transfer.rs:282-290 | A session over that interrupted transfer, whose id is no longer new, is admissible as well. |
| `Witness.TwoFilesReached` | crates/protocol-native-v1/src/transfer.rs:268-341 | An accept and two chunks bring a receiver to a transfer with both files on disk, the second named with a separator. |
| `Witness.HalfPublished` | crates/protocol-native-v1/src/transfer.rs:389-394 | Its finish fails with the first file in the inbox and not all files delivered. |

## Left out

- Ranges.MergeWrapping: for ranges that end past 2^64 it states the wrapped fold and no coverage, because no reachable manifest holds one (`Runs.ReachableRangesFit`); a build with overflow checks would stop there.
- Ranges.MissingRangesFor: the same bound, for the same reason.
- Ranges.RangesCover: the same bound, for the same reason.
- ByteStreams.ByteStream.ReadChunkFrame: after an error it says that an end of the stream is left but not which, since the connection is then given up.
- Lockstep.SessionDelivers: is about a transfer that is new to the receiver or consistent with the sources; a session that repeats the id of a transfer whose parts were moved or hold other bytes is not modelled.
- QUIC, TLS, certificates, the authenticated hello, Ed25519, HKDF, BLAKE3 and SHA-256: the hello check and the digests are parameters.
- The JSON encoding of control payloads: a codec that may refuse a message and whose decoding undoes its encoding is a parameter; tags, lengths, limits and stream position are modelled.
- SQLite, its migrations and connection handling: tables are maps, and the digest column of a chunk row is never read and so not stored.
- File-system failures other than a missing part and a write or finish cut short: permissions, full disks, links, case-insensitive or over-long names, and names with a NUL byte.
- A transfer or file id that cleans to nothing gets a part path with a fresh UUID at every use in the code: the model treats such a part as unreachable.
- Concurrent calls on one transfer, one upload or one store: steps are atomic and come in any order.
- The client's wait for ever when the daemon drops a connection: a failed daemon just stops, and error messages to the peer are not modelled.
- Fresh randomness: transfer ids, session ids and tokens are parameters; nothing is claimed about guessing them.
- The registry's `expires_at_unix_seconds` field and overflow of clock arithmetic.
- `lookup_request`, which only validates a key and calls the lookup.
- The LAN peer table, the legacy LocalSend endpoints and their file-type mapping, and the parsing of the static fingerprint file.
- The Unicode lower-casing table: normalization holds for any lower-casing with the stated laws, and ASCII is shown to have them.
- `TextDecoder` and `JSON.parse` in the event stream, and aborting it.
- STUN sockets, local address discovery, mDNS, candidate dialing and its timeouts.
- The trust store for native peers, configuration, token vaults, gRPC and HTTP handlers, the command line, user interfaces, metrics, hooks and the Python SDK: thin or easy.
