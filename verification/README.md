# RevLink: verified model of the protocol, ledger and policy core

RevLink is a sidecar that fetches files from an AccessPort over USB, keeps them with a history on a card, writes staged
maps back, and joins a network or opens a hotspot to show them. This project models the C code that decides what is
sent, stored, retried and restored, and proves what that code keeps over all inputs, all runs and, for the USB tasks,
all interleavings.

## What is modelled

- **Wire protocol** (`Crc32`, `AccessPortProtocol`, `DownloadDecoder`, `UploadStream`): the reflected CRC-32 of
  section 8.1.1.6.2 of ITU-T V.42 as shifts of a register, records and chunks built through a moving cursor, the
  streaming decoder as a class fed with arbitrary slices, and the two-pass upload packetiser over a source with short
  reads.
- **Ledgers** (`LedgerText`, `SyncManifest`, `SyncManifestText`, `SyncManifestLedger`, `SyncHistory`,
  `SyncAnnotations`, `SyncAnnotationsText`): fixed arrays that act as maps and an append-only log, their printers into
  bounded buffers and their transactional parsers, byte for byte. `ManifestAcceptance`, `HistoryAcceptance` and
  `AnnotationsAcceptance` say which texts those parsers accept, by what is written in them.
- **Batch sync** (`BatchSelection`, `BatchSync`, `BatchChain`): the safety filter and insertion sort, the bounded
  batch of four files and 16 MiB, and the chain of continuation batches.
- **USB tasks** (`UsbScheduling`, `UsbRequests`, `UsbDeferral`, `UsbLifecycle`, `UsbBlockedStart`,
  `UsbTransactionCheck`): client, descriptor and transaction task as interleaved steps over device slots and queues.
- **Policy machines** (`DeviceService`, `SyncCoordinator`, `Application`, `NetworkCoordinator`, `NetworkRuntime`):
  classes whose methods equal transition specifications, and theorems over every run of calls, transport answers and
  radio outcomes. `DeviceHistory`, `CoordinatorHistory`, `ApplicationOffers`, `ApplicationRetry` and `NetworkHistory`
  tell the same machines from what was accepted or seen outside, without their states, and `RadioAnswers` from the
  radio's answers.
- **Durable state** (`StagedMapRecord`, `StagingCard`, `MapUpload`, `UploadTargets`, `MapLifetime`, `BackupArchive`,
  `BackupImage`, `BackupMerge`, `BackupStore`, `BackupRestore`): a card on which every operation can fail and power
  can go at any step, the staged-map commit and restore over it through any number of restarts, and backup export,
  upload, validation and merge over a map from paths to bytes.

Class methods are proved against specification functions of the old state, or against contracts that state the promise
outright; the lemmas then prove what the specifications mean. Where the code turned out not to keep a rule one would
expect, the model keeps the code:

- Files without a device time are never current (`BatchSync.EverythingBecomesCurrentIff`) and are downloaded
  again and again. The continuation chain ends for every manifest exactly when they are few and small enough
  (`BatchChain.ChainEndsIff`); three of 8 MiB keep it running for ever where the manifest has room
  for them (`BatchChain.ThreeLargeUntimed`), and four of one byte keep a file behind them from ever being fetched
  (`BatchChain.FourUntimedAndOneMore`).
- A completion that arrives while a sync is being cancelled is refused, and the coordinator stays cancelling
  (`SyncCoordinator.CancellingEndsIff`).
- No device operation may start in a conflict (docs/SINGLE_ACCESSPORT_SAFETY.md:37); the code checks for one before it
  waits for the device to be ready and not after, so a conflict found during the wait does not stop the start
  (`UsbTransactionCheck.StartsWhileLatched`; exactly when, in `UsbBlockedStart.StillStartsIff`). The check counts
  eligible devices without asking whether its own is one of them (`UsbTransactionCheck.PassesForGoneDevice`,
  `UsbRequests.CountPassesIff`).
- A backup with a file outside a device directory, or of more than 512 MiB, exports without an error and can be restored
  nowhere (`BackupArchive.ExportValidatesIff`, `BackupRestore.ExportedButTooLarge`).
- A failed attempt to begin a new staging, by an over-long name or a failed open, and an abort after a commit, clear the
  announced size of the payload staged before (`MapUpload.Service.StageBegin`, `MapUpload.OverLongName`,
  `MapUpload.Service.StageAbort`); it stays staged, but no request for it is permitted until a restart or a new upload
  (`MapUpload.Service.RequestUpload`, `MapLifetime.Perform`). The portal bounds names before, and aborts whenever its
  startup-image request is refused.
- A fresh manifest row starts with unknown presence, where the comment beside the code says it is recorded as on the
  device (`SyncManifest.UpsertKeepsPresence`).
- A cache name with an embedded zero byte in a ledger line is read up to that byte
  (`SyncManifestText.ZeroEndsCacheName`).

`dafny verify dfyconfig.toml` checks the whole project.

## Model

| member | source | states |
|---|---|---|
| `Crc32.BurstChangesCrc` | firmware/components/accessport_protocol/revlink_accessport_protocol.c:108-118 | The register differs for any two strings of one length that differ only inside four consecutive bytes, whatever surrounds them and from whatever register one starts |
| `Crc32.CrcInjectiveInRegister` | firmware/components/accessport_protocol/revlink_accessport_protocol.c:108-118 | Absorbing equal bytes never brings two different registers together, so a difference once made survives to the end |
| `Crc32.Update` | firmware/components/accessport_protocol/revlink_accessport_protocol.c:108-118 | The byte and bit loops compute the register defined one shift at a time |
| `Crc32.JamCrcTellsApart` | firmware/components/accessport_protocol/revlink_accessport_protocol.c:262-274 | The checksum over a frame whose trailer is read as zero tells apart any two bodies that differ within four consecutive bytes |
| `Crc32.JamCrcStream.FinishZeroedTrailer` | firmware/components/accessport_protocol/revlink_accessport_protocol.c:139-153 | The streaming form, fed any pieces, ends with the checksum of their concatenation followed by a zero trailer |
| `AccessPortProtocol.ParseInvertsBuild` | firmware/components/accessport_protocol/revlink_accessport_protocol.c:851-872 | Parsing a built record gives back its opcode and payload |
| `AccessPortProtocol.BuildInvertsParse` | firmware/components/accessport_protocol/revlink_accessport_protocol.c:851-872 | Every record the parser accepts with the archive header is byte for byte the one the builder makes from the parsed view |
| `AccessPortProtocol.ChunkValidIffBuilt` | firmware/components/accessport_protocol/revlink_accessport_protocol.c:566-583 | A byte string is a valid chunk exactly when it is the built chunk of some payload and flag |
| `AccessPortProtocol.OneByteChangeRejected` | firmware/components/accessport_protocol/revlink_accessport_protocol.c:827-849 | Changing any one byte of a valid record or of a valid chunk makes its validator reject it |
| `AccessPortProtocol.RecordBurstRejected` | firmware/components/accessport_protocol/revlink_accessport_protocol.c:827-849 | So does any change within four consecutive bytes of a valid record on one side of the start of the checksum |
| `AccessPortProtocol.ChunkBurstRejected` | firmware/components/accessport_protocol/revlink_accessport_protocol.c:566-583 | The same for a valid chunk |
| `AccessPortProtocol.BuildRecord` | firmware/components/accessport_protocol/revlink_accessport_protocol.c:276-306 | The cursor-driven builder writes exactly the specified record, or answers the capacity error, and touches nothing beyond it |
| `AccessPortProtocol.BuildUpload` | firmware/components/accessport_protocol/revlink_accessport_protocol.c:449-491 | The upload request is the record of its length-prefixed fields |
| `AccessPortProtocol.BuildChunk` | firmware/components/accessport_protocol/revlink_accessport_protocol.c:493-541 | The chunk builder writes exactly the specified chunk in place |
| `DownloadDecoder.Decoder.Feed` | firmware/components/accessport_protocol/revlink_accessport_protocol.c:1188-1346 | The five-state decoder, fed one slice, answers the verdict of the one-shot reading of everything consumed so far, and has delivered exactly its payload bytes |
| `DownloadDecoder.ErrorStable` | firmware/components/accessport_protocol/revlink_accessport_protocol.c:1188-1346 | Once a stream has failed, no continuation changes the verdict |
| `DownloadDecoder.SegmentsReadAsOne` | firmware/components/accessport_protocol/revlink_accessport_protocol.c:1188-1346 | Feeding segment after segment and stopping at the first error is reading their concatenation at once |
| `DownloadDecoder.SegmentationIndependence` | firmware/components/accessport_protocol/revlink_accessport_protocol.c:1188-1346 | Two ways of cutting one stream give the same first error, payload, phase and surplus count |
| `DownloadDecoder.CompleteIffFramed` | firmware/components/accessport_protocol/revlink_accessport_protocol.c:1170-1186 | Decoding completes with a payload and a surplus exactly on the streams made of a response record, a chunk header with the download flag, that payload, four zero bytes or the checksum of header and payload, and that surplus |
| `DownloadDecoder.TrailerDecides` | firmware/components/accessport_protocol/revlink_accessport_protocol.c:1308-1340 | Behind an accepted header and its payload, four bytes that are zero or the checksum complete the chunk, and any other four bytes fail it as an invalid checksum |
| `DownloadDecoder.RefusedAtOnce` | firmware/components/accessport_protocol/revlink_accessport_protocol.c:1188-1262 | The archive record is refused as soon as its first three bytes, or then its length field, are there and wrong, and not before |
| `DownloadDecoder.DamagedDownloadRefused` | firmware/components/accessport_protocol/revlink_accessport_protocol.c:1188-1346 | A built stream whose payload was damaged within four consecutive bytes on its way, and whose checksum is not zero, ends as an invalid checksum, however it is cut and whatever follows |
| `DownloadDecoder.BuildersThenDecoder` | firmware/components/accessport_protocol/revlink_accessport_protocol.c:493-541 | What the record and chunk builders frame, the decoder delivers, with nothing left over, however the stream is cut |
| `DownloadDecoder.DecodeSegments` | firmware/components/accessport_usb/revlink_accessport_usb.c:1497-1533 | The transport's loop over received slices ends with the verdict and bytes of the one-shot reading of what it used, and stops early only at a complete chunk or an error |
| `UploadStream.StreamUploadChunk` | firmware/components/accessport_usb/revlink_accessport_usb.c:1772-1849 | For every source that may return short reads, what was sent is a prefix of chunk prefix, file and checksum; on success all of it, every packet but the last full; and it succeeds if the file is long enough and neither source nor endpoint fails |
| `UploadStream.CalculateChunkCrc` | firmware/components/accessport_usb/revlink_accessport_usb.c:1726-1770 | The first pass succeeds only on a file of exactly the announced size, and there whenever no read fails, with the checksum of prefix, file and zero trailer |
| `UploadStream.PacketCount` | firmware/components/accessport_usb/revlink_accessport_usb.c:1772-1849 | Full packets and one last nonempty packet number the rounded-up quotient of the total by the packet size |
| `UploadStream.UploadFile` | firmware/components/accessport_usb/revlink_accessport_usb.c:1993-2048 | Both passes together send exactly the built upload chunk of the file, in ceil((size + 11) / 512) packets; where nothing fails, exactly for the file's own size, if a chunk can hold it |
| `LedgerText.DecimalRoundTrip` | firmware/components/revlink_sync/revlink_sync_manifest.c:76-110 | Printing and parsing is the identity for 32- and 64-bit integers |
| `LedgerText.ReadDecimal` | firmware/components/revlink_sync/revlink_sync_manifest.c:76-110 | The digit loop with its overflow guard accepts exactly the digit strings within the digit count and the integer width |
| `LedgerText.NumeralIff` | firmware/components/revlink_sync/revlink_sync_manifest.c:76-110 | A digit string is read as a number exactly when it is that number in decimal behind any zeros, within the digit count, and the number is below the limit |
| `LedgerText.HexadecimalIff` | firmware/components/revlink_sync/revlink_sync_manifest.c:112-131 | A text is read as a byte string exactly when it is that string in hexadecimal, the letters in either case |
| `LedgerText.NameFieldIff` | firmware/components/revlink_sync/revlink_sync_manifest.c:520-540 | A field is read as a name exactly when it is the name, or the name, a zero byte and anything, of at most 159 bytes |
| `LedgerText.SplitLine` | firmware/components/revlink_sync/revlink_sync_manifest.c:496-513 | The field scanner yields exactly the parts between tabs, when there are at most seven and none is empty |
| `SyncManifest.UpsertRefinesMap` | firmware/components/revlink_sync/revlink_sync_manifest.c:196-258 | An accepted upsert writes one path of the map, merged with the entry it replaces: time, size, digest and cache name are the given ones; a refused one changes nothing |
| `SyncManifest.SetPresenceRefinesMap` | firmware/components/revlink_sync/revlink_sync_manifest.c:260-279 | Setting presence changes one field of one path |
| `SyncManifest.RemoveRefinesMap` | firmware/components/revlink_sync/revlink_sync_manifest.c:281-307 | Removal by moving the last row into the gap removes exactly one path of the map |
| `SyncManifest.LookupIsIndex` | firmware/components/revlink_sync/revlink_sync_manifest.c:140-158 | Finding a path is looking it up in the map |
| `SyncManifest.MatchesIffRecorded` | firmware/components/revlink_sync/revlink_sync_manifest.c:160-172 | A listed file counts as current exactly when it has a device time and one row has its path, its time and its size together |
| `SyncManifest.DigestUsersCountsPaths` | firmware/components/revlink_sync/revlink_sync_manifest.c:309-328 | The digest count is the number of paths whose content it is |
| `SyncManifest.UpsertMovesUsers` | firmware/components/revlink_sync/revlink_sync_manifest.c:196-258 | Each upsert moves the count of every digest by exactly the references it drops and adds |
| `SyncManifest.RemoveMovesUsers` | firmware/components/revlink_sync/revlink_sync_manifest.c:281-307 | Each removal lowers the count of exactly the removed content |
| `SyncManifest.FirstSyncTimeStays` | firmware/components/revlink_sync/revlink_sync_manifest.c:231-246 | Over any run that neither removes a path nor gives it other content, its first sync time stays |
| `SyncManifest.UpsertKeepsPresence` | firmware/components/revlink_sync/revlink_sync_manifest.c:239-256 | No upsert, of whatever path and content, changes a presence already recorded, and a fresh row starts as unknown |
| `SyncManifest.RunKeepsNormalForm` | firmware/components/revlink_sync/revlink_sync_manifest.c:196-307 | Every run keeps paths unique and rows valid within the capacity |
| `SyncManifestText.ParsedTextNormal` | firmware/components/revlink_sync/revlink_sync_manifest.c:420-601 | Any accepted text of version 1, 2 or 3 yields unique valid paths, valid cache names and nonzero sizes |
| `SyncManifestText.RoundTrip` | firmware/components/revlink_sync/revlink_sync_manifest.c:343-418 | Printing a manifest and parsing the text gives back the same table, row for row |
| `SyncManifestText.AcceptedTextReprints` | firmware/components/revlink_sync/revlink_sync_manifest.c:343-601 | One parse normalises: any accepted text reprints to a fixed point |
| `SyncManifestText.ZeroEndsCacheName` | firmware/components/revlink_sync/revlink_sync_manifest.c:496-601 | A line whose cache name has a zero byte and more behind it reads as the entry with the name before that byte |
| `ManifestAcceptance.AcceptedIff` | firmware/components/revlink_sync/revlink_sync_manifest.c:420-601 | A text is accepted as a table exactly when it is the first line of a version and lines of tab-separated fields that write entries in that version, each finding its path or a free place, and the table is what they leave |
| `ManifestAcceptance.OverflowIff` | firmware/components/revlink_sync/revlink_sync_manifest.c:420-601 | The table is reported full exactly when such a line finds neither; every other refusal is of the format |
| `ManifestAcceptance.FieldsIff` | firmware/components/revlink_sync/revlink_sync_manifest.c:515-570 | Fields are read as an entry exactly when they write it: path, decimal time, size and first sync time, hexadecimal digest, cache name and presence digit, fewer in older versions |
| `ManifestAcceptance.LastLineStands` | firmware/components/revlink_sync/revlink_sync_manifest.c:571-590 | Of several lines for a path the last one stands, but for a first sync time kept while the content is unchanged |
| `SyncManifestLedger.Manifest.UpsertAt` | firmware/components/revlink_sync/revlink_sync_manifest.c:196-258 | The array operation equals the table specification and keeps every slot past the count cleared |
| `SyncManifestLedger.Manifest.Remove` | firmware/components/revlink_sync/revlink_sync_manifest.c:281-307 | The array operation equals the table specification and clears the vacated slot |
| `SyncManifestLedger.Manifest.Serialize` | firmware/components/revlink_sync/revlink_sync_manifest.c:343-418 | The buffer holds exactly the printed text, or the call reports that it did not fit |
| `SyncManifestLedger.Manifest.Parse` | firmware/components/revlink_sync/revlink_sync_manifest.c:420-601 | With memory for a second copy the parser answers as the text specification does; a refused input leaves the manifest untouched |
| `SyncManifestLedger.Manifest.DigestUsers` | firmware/components/revlink_sync/revlink_sync_manifest.c:309-328 | The counting loop computes the digest count of the table |
| `SyncHistory.HistoryAppendOnly` | firmware/components/revlink_sync/revlink_sync_history.c:188-313 | Over any run of recording, saving and loading, old versions stay in place and every new number is at least the old next number |
| `SyncHistory.KnownContentKeepsNumber` | firmware/components/revlink_sync/revlink_sync_history.c:138-162 | A known path and digest always gets its old number back |
| `SyncHistory.LogRoundTrip` | firmware/components/revlink_sync/revlink_sync_history.c:236-313 | Printing a log and parsing the text gives back the same versions and next number |
| `SyncHistory.ParsedLogValid` | firmware/components/revlink_sync/revlink_sync_history.c:315-454 | Every accepted text gives strictly increasing numbers below the next number, valid paths and names |
| `HistoryAcceptance.AcceptedIff` | firmware/components/revlink_sync/revlink_sync_history.c:315-454 | A text is accepted as a log exactly when it is the first line of a version with the next number, then lines that write the log's versions in order, and the log is valid: numbers rising, below the next one, at most 512 |
| `HistoryAcceptance.OverflowIff` | firmware/components/revlink_sync/revlink_sync_history.c:315-454 | The history is reported full exactly when the text goes on beyond 512 lines with one that writes a version with a higher number; every other refusal is of the format |
| `SyncHistory.History.RecordAt` | firmware/components/revlink_sync/revlink_sync_history.c:188-234 | The array operation equals the log specification: found, appended with the next number, or refused when full |
| `SyncHistory.History.Parse` | firmware/components/revlink_sync/revlink_sync_history.c:315-454 | With memory for a second copy the parser answers as the text specification does; a refused text leaves the history untouched |
| `SyncHistory.History.Serialize` | firmware/components/revlink_sync/revlink_sync_history.c:236-313 | On success the buffer holds exactly the printed log |
| `SyncAnnotations.SetNoteRefinesMap` | firmware/components/revlink_sync/revlink_sync_annotations.c:90-163 | Setting a note stores, drops or keeps exactly one digest of the map |
| `SyncAnnotations.SetMapRefinesMap` | firmware/components/revlink_sync/revlink_sync_annotations.c:165-236 | Linking and unlinking a map change exactly one digest; unlinking drops an annotation without a note |
| `SyncAnnotations.RunKeepsValid` | firmware/components/revlink_sync/revlink_sync_annotations.c:90-236 | Every run keeps digests unique and every entry carrying a note or a map |
| `SyncAnnotations.LastGivenStands` | firmware/components/revlink_sync/revlink_sync_annotations.c:90-236 | After any run the link of a digest is the one last given to that very digest, or the first one if none was accepted, and so is its note: nothing said about another digest, and no note, moves a link |
| `SyncAnnotationsText.LedgerRoundTrip` | firmware/components/revlink_sync/revlink_sync_annotations.c:238-319 | Printing a ledger and parsing the text gives back the same ledger, notes and links included |
| `SyncAnnotationsText.ParsedLedgerValid` | firmware/components/revlink_sync/revlink_sync_annotations.c:321-435 | Every accepted text gives a ledger satisfying the invariant |
| `AnnotationsAcceptance.AcceptedIff` | firmware/components/revlink_sync/revlink_sync_annotations.c:321-435 | A text is accepted as a ledger exactly when it is the first line of a version and lines that write annotations, each finding its digest or a free place or having nothing to keep, and the ledger is what they leave |
| `AnnotationsAcceptance.RefusedIff` | firmware/components/revlink_sync/revlink_sync_annotations.c:321-435 | A text is refused for a note, or for want of room, exactly when the first line that is not stored holds a forbidden byte in its note, or needs a place in a full ledger; every other refusal is of the format |
| `AnnotationsAcceptance.AdmitWrites` | firmware/components/revlink_sync/revlink_sync_annotations.c:385-430 | A line replaces the note of its digest and, if it names a map, the map; every other digest keeps both |
| `SyncAnnotationsText.Annotations.SetNote` | firmware/components/revlink_sync/revlink_sync_annotations.c:90-163 | The array operation equals the ledger specification, and a new entry starts from a cleared slot without a stale map tag |
| `SyncAnnotationsText.Annotations.SetMap` | firmware/components/revlink_sync/revlink_sync_annotations.c:165-236 | The array operation equals the ledger specification |
| `SyncAnnotationsText.Annotations.Parse` | firmware/components/revlink_sync/revlink_sync_annotations.c:321-435 | With memory for a second copy the parser answers as the text specification does; a refused text leaves the ledger untouched |
| `BatchSelection.SelectionIgnoresListingOrder` | firmware/components/accessport_usb/revlink_accessport_usb.c:3127-3150 | Listings that are permutations of each other with distinct paths are downloaded in the same order |
| `BatchSelection.CandidatesAreSafeFiles` | firmware/components/accessport_usb/revlink_accessport_usb.c:908-965 | The candidates are exactly the safe listed files, in the order of size and path |
| `BatchSelection.SafeIff` | firmware/components/accessport_usb/revlink_accessport_usb.c:908-965 | A listed entry is safe exactly when it is a file of 1 byte to 8 MiB lying in the collection's directory itself, under a name of at most 127 plain characters that has one of the collection's extensions behind something |
| `BatchSync.DeviceListingsWellNamed` | firmware/components/accessport_usb/revlink_accessport_usb.c:2846-2886 | The device's four collections are named so that the results over listings apply to them |
| `BatchSelection.PrecedesIsSizeThenPath` | firmware/components/accessport_usb/revlink_accessport_usb.c:967-985 | The comparison is size first, then dictionary order of the path bytes |
| `BatchSelection.SortCandidates` | firmware/components/accessport_usb/revlink_accessport_usb.c:3139-3150 | The in-place insertion sort yields the sorted permutation and leaves the rest of the array alone |
| `BatchChain.ChainEndsIff` | firmware/esp32p4/main/revlink_main.c:473-502 | Whatever the manifest holds at the start, the continuation chain ends, if and only if at most three untimed files come before any listed file and leave room for it in one batch |
| `BatchChain.ChainEnds` | firmware/esp32p4/main/revlink_main.c:473-502 | From a given manifest the chain ends, with a row of listed path, time and size for every timed file, when the untimed files and those stale at the start are in reach of a batch; after at most one batch more than there are stale timed files |
| `BatchChain.StuckForEver` | firmware/components/accessport_usb/revlink_accessport_usb.c:3170-3251 | A stale timed file out of reach behind untimed ones is never downloaded, and every batch asks for another |
| `BatchChain.ThreeLargeUntimed` | firmware/components/accessport_usb/revlink_accessport_usb.c:3203-3207 | Three untimed files of 8 MiB are downloaded for ever, from every manifest with room for them |
| `BatchChain.FourUntimedAndOneMore` | firmware/components/accessport_usb/revlink_accessport_usb.c:3203-3207 | Four untimed files of one byte keep a stale timed one behind them from ever being downloaded |
| `BatchSync.ChainConverges` | firmware/esp32p4/main/revlink_main.c:473-502 | When every file has a device time: with s stale files the chain ends after at most one batch or (s + 1) / 2, each stale file downloaded exactly once, nothing pending and every file current |
| `BatchSync.BatchProgress` | firmware/components/accessport_usb/revlink_accessport_usb.c:3170-3251 | A batch that leaves files pending has downloaded at least two; none is pending exactly when every file is current; the downloads are the drop in stale files |
| `BatchSync.ListedFilesBecomeCurrent` | firmware/components/accessport_usb/revlink_accessport_usb.c:2850-3251 | The same from the listings themselves: when every safe listed file has a device time, the manifest ends up with a row of its listed path, time and size for every one of them |
| `BatchSync.EverythingBecomesCurrentIff` | firmware/components/revlink_sync/revlink_sync_manifest.c:160-172 | Chained batches ever make every file current exactly when every listed file has a nonzero device time, and then give each a row of its listed path, time and size |
| `BatchSync.UntimedFilesChainForEver` | firmware/esp32p4/main/revlink_main.c:473-502 | From every manifest with room for the listed files, untimed files that do not fit one batch, by number or by size, make every batch ask for another, for ever |
| `BatchSync.FullManifestEndsChain` | firmware/esp32p4/main/revlink_main.c:473-482 | With a full manifest and a first candidate it does not hold, the first batch ends at a refused commit and asks for no other |
| `BatchSync.RunBatch` | firmware/components/accessport_usb/revlink_accessport_usb.c:2900-3251 | The batch loops compute the batch specification; without a failure or a cancellation they pass exactly when every commit is accepted, and otherwise end at the first refused one; cut short they have done what a clean batch does up to that file, and pending is always what is left |
| `DeviceService.ConflictHoldsUntilEmpty` | firmware/components/revlink_core/revlink_device_service.c:107-149 | A conflict ends only with an accepted detach that leaves no eligible device |
| `DeviceService.RevisionsGrow` | firmware/components/revlink_core/revlink_device_service.c:55-161 | Over every run the topology revision never decreases and the invariant on state, identity and device count holds |
| `DeviceService.Service.HandleEvent` | firmware/components/revlink_core/revlink_device_service.c:48-161 | The handler updates its fields as the transition table says, and keeps the invariant |
| `DeviceHistory.HistoryDecides` | firmware/components/revlink_core/revlink_device_service.c:48-161 | After any run of events, whether the next is accepted and the whole snapshot follow from the accepted ones alone: the state from the last of them unless a conflict stands, which lasts from the report of several devices to a detach that leaves none; the identity from the last attach or accept, and only the attached device can be accepted; device count, revision and error likewise |
| `SyncCoordinator.CancellingEndsIff` | firmware/components/revlink_sync/revlink_sync_coordinator.c:145-176 | A cancellation ends exactly when a failure or a cancellation is reported; a completion alone leaves the machine cancelling |
| `SyncCoordinator.Coordinator.HandleEvent` | firmware/components/revlink_sync/revlink_sync_coordinator.c:134-198 | Every event is accepted or refused by state, and an accepted one replaces the whole snapshot |
| `SyncCoordinator.Coordinator.Request` | firmware/components/revlink_sync/revlink_sync_coordinator.c:63-111 | A request reaches the transport only while nothing is active, and only an accepted one queues an operation |
| `CoordinatorHistory.HistoryDecides` | firmware/components/revlink_sync/revlink_sync_coordinator.c:63-198 | After any run of calls, whether the next is accepted and the snapshot after it follow from the accepted ones alone: a request exactly when none is open and the transport takes it, a cancellation once while one is, a completion only of what has begun and was not cancelled |
| `Application.AutomaticBudget` | firmware/components/revlink_application/revlink_application.c:26-101 | Over every run, between two physical attach or detach events the transport accepts at most two automatic requests |
| `Application.ConflictDisarms` | firmware/components/revlink_application/revlink_application.c:171-213 | Over every run, after a reported conflict nothing automatic is even offered to the transport until it has accepted a manual request |
| `Application.RecoveriesNeverOutnumberRequests` | firmware/components/revlink_application/revlink_application.c:338-393 | Over every run, at every moment, session-close recoveries do not outnumber accepted sync requests |
| `Application.OperationsAlternate` | firmware/components/revlink_sync/revlink_sync_coordinator.c:63-198 | Over every run, accepted operations and accepted ends alternate |
| `Application.OpenWhileActive` | firmware/components/revlink_sync/revlink_sync_coordinator.c:63-198 | One operation is open exactly while the coordinator is active, none otherwise |
| `Application.RequestsOnlyWhenAvailable` | firmware/components/revlink_application/revlink_application.c:267-324 | Whatever is handed to the transport is handed over while exactly one eligible device is there, idle and not in conflict |
| `ApplicationOffers.OfferedIff` | firmware/components/revlink_application/revlink_application.c:50-101 | After any run, an accepted device is offered to the transport, once, exactly when the policy last set is on, nothing was tried for this attachment and no operation is open; no other device event offers anything |
| `ApplicationOffers.TriedIff` | firmware/components/revlink_application/revlink_application.c:67-82 | Something was tried exactly when, since the last physical change with no conflict unanswered, a sync request was accepted or several devices were reported |
| `ApplicationOffers.AttachedIsOffered` | firmware/components/revlink_application/revlink_application.c:50-101 | With the policy on, a physically attached device is offered when it is accepted, if no conflict is unanswered, nothing was tried since and nothing is active |
| `ApplicationOffers.OffersFollowPolicy` | firmware/components/revlink_application/revlink_application.c:26-101 | Nothing automatic is ever offered, by whatever call, while the policy last set is off |
| `ApplicationOffers.RecoveryOfferedIff` | firmware/components/revlink_application/revlink_application.c:338-393 | After any run, an operation that failed after its data phase and was not closed is followed by a close recovery exactly when those are allowed, none was offered since the last accepted request, and the device is there |
| `ApplicationOffers.ConflictCancels` | firmware/components/revlink_application/revlink_application.c:171-213 | A report of several devices, like a call to cancel, cancels exactly what is queued or running, and asks for nothing |
| `ApplicationRetry.RetryOfferedIff` | firmware/components/revlink_application/revlink_application.c:292-324 | After any run, a retry is offered exactly when the policy last set is on, an offer was refused or missed or an automatic operation failed without having moved data, none was retried for this attachment, no conflict is unanswered, the device is there and nothing is open |
| `ApplicationRetry.AcceptedStartsAfresh` | firmware/components/revlink_sync/revlink_sync_coordinator.c:63-111 | An accepted request leaves a queued operation with a blank report, marked as a close recovery exactly if it is one |
| `Application.Controller.HandleDeviceEvent` | firmware/components/revlink_application/revlink_application.c:171-213 | The event handler changes flags, device and sync state, and asks the transport, as the step specification says |
| `Application.Controller.HandleSyncEvent` | firmware/components/revlink_application/revlink_application.c:338-393 | The same for sync events, the retry rule and the close recovery |
| `Application.Controller.RequestSync` | firmware/components/revlink_application/revlink_application.c:267-290 | A manual request is accepted exactly when the device is available, nothing is active and the transport takes it |
| `Application.Controller.RetryAutoSync` | firmware/components/revlink_application/revlink_application.c:292-324 | A retry is issued exactly when it is needed, and is then counted |
| `NetworkCoordinator.HandleKeepsValid` | firmware/components/revlink_network/revlink_network_coordinator.c:128-327 | Every event keeps the invariant: the clock below its timeout in timed states and zero elsewhere, attempts within their limit, a network selected exactly while connecting, connected or reconnecting; a refused event changes nothing |
| `NetworkCoordinator.WaitIsBounded` | firmware/components/revlink_network/revlink_network_coordinator.c:83-126 | However the ticks fall and in spite of saturation, a machine still connecting has waited less than attempt limit + 1 startup timeouts since it was at rest, one searching less than one, one reconnecting less than a reconnect timeout |
| `NetworkCoordinator.ActionFits` | firmware/components/revlink_network/revlink_network_coordinator.c:128-327 | The action an event returns always fits the state it leaves |
| `NetworkCoordinator.TransferDoesNotHoldReconnect` | firmware/components/revlink_network/revlink_network_coordinator.c:83-126 | Over any run of ticks and failures a reconnecting machine gives up exactly when the ticks have used up the timeout, and with the transfer flag the other way round the whole run is the same but for that flag |
| `NetworkHistory.AnswersIff` | firmware/components/revlink_network/revlink_network_coordinator.c:128-327 | Exactly what is refused and why: wrong arguments, what would take the network from a transfer, and events outside their states |
| `NetworkHistory.RunIsTold` | firmware/components/revlink_network/revlink_network_coordinator.c:128-327 | After any run the transfer flag, the last error, the network in use, the complaints against it and the attempts at it are those the accepted events tell |
| `NetworkHistory.ConnectsWhileAttemptsLast` | firmware/components/revlink_network/revlink_network_coordinator.c:186-211 | A machine that is connecting goes on with the network it chose for exactly as long as attempts are left and none takes the whole startup timeout, however failures and ticks fall, and then opens the hotspot |
| `NetworkHistory.SearchesForTheTimeout` | firmware/components/revlink_network/revlink_network_coordinator.c:83-126 | A scan is waited for exactly as long as the startup timeout |
| `NetworkHistory.ProbesAtTheInterval` | firmware/components/revlink_network/revlink_network_coordinator.c:83-126 | A network in use is probed with the tick that completes the probe interval and not before, and never during a transfer |
| `NetworkHistory.GivesUpAtTheThreshold` | firmware/components/revlink_network/revlink_network_coordinator.c:128-327 | Without a transfer a network in use is given up for a reconnect at exactly the threshold of complaints |
| `NetworkCoordinator.Coordinator.Handle` | firmware/components/revlink_network/revlink_network_coordinator.c:128-327 | The handler changes its fields and returns status and action as the transition specification says, and keeps the invariant |
| `NetworkRuntime.ChainSettles` | firmware/esp32p4/main/revlink_network_runtime.c:131-245 | For every sequence of radio outcomes no generated event is refused and the chain settles within attempt limit + 3 iterations, with no action left, waiting for a hotspot credential, or with the radio stopped |
| `NetworkRuntime.EventSettles` | firmware/esp32p4/main/revlink_network_runtime.c:247-263 | Every event from outside is refused with nothing changed or starts a chain that settles in time |
| `NetworkRuntime.RunRests` | firmware/esp32p4/main/revlink_network_runtime.c:281-628 | After every run of calls the shipped policy is never left searching or connecting, and a hotspot still starting waits for a credential that is not there |
| `NetworkRuntime.ConfigureReportsTheJoin` | firmware/esp32p4/main/revlink_network_runtime.c:468-521 | Configuring a station reports success exactly when the policy may start over and the radio has joined that very network, never for the fallback hotspot |
| `RadioAnswers.SearchIsDecided` | firmware/esp32p4/main/revlink_network_runtime.c:131-245 | Looking for the saved network, for every radio: the first attempt it answers joins that network after exactly that many calls; when it answers none of the permitted attempts, or nothing is saved, the hotspot is started and is up or faulted as the radio says, or waits for its credential |
| `RadioAnswers.ProbeIsDecided` | firmware/esp32p4/main/revlink_network_runtime.c:208-218 | A due probe asks the radio once: an answer clears the failures, a silence counts one, and the last one allowed is followed by exactly one attempt to return to the network |
| `RadioAnswers.LossIsDecided` | firmware/esp32p4/main/revlink_network_runtime.c:154-206 | A lost link is followed by one attempt to return, without asking the radio when that network is no longer the saved one |
| `RadioAnswers.HotspotIsDecided` | firmware/esp32p4/main/revlink_network_runtime.c:208-231 | A request of the user, or reconnecting for the whole timeout, starts the hotspot, which is up or faulted as the radio says, or waits for its credential |
| `RadioAnswers.CredentialIsDecided` | firmware/esp32p4/main/revlink_network_runtime.c:556-588 | A credential starts a waiting hotspot and is only kept at any other time |
| `RadioAnswers.FailedPollIsDecided` | firmware/esp32p4/main/revlink_network_runtime.c:315-335 | A link failure seen by the poll, while connected as a client, is followed by one attempt to return and by half a second counted |
| `RadioAnswers.QuietPollIsDecided` | firmware/esp32p4/main/revlink_network_runtime.c:315-335 | Any other poll counts half a second towards the probe or the end of the reconnection and leaves every resting state alone |
| `RadioAnswers.TransferIsDecided` | firmware/esp32p4/main/revlink_network_runtime.c:606-628 | A transfer is marked while connected or serving the hotspot, and its end always |
| `RadioAnswers.HandleTellsApart` | firmware/esp32p4/main/revlink_network_runtime.c:66-76 | Names of one length that differ in one byte have different handles, unless their hashes are zero and one |
| `NetworkRuntime.ComputeNetworkId` | firmware/esp32p4/main/revlink_network_runtime.c:66-76 | The hash loop computes the network handle, which is never zero |
| `NetworkRuntime.NetworkService.ExecuteAction` | firmware/esp32p4/main/revlink_network_runtime.c:131-245 | The bounded action loop does what the chain specification says for the radio it has |
| `NetworkRuntime.NetworkService.ConfigureStation` | firmware/esp32p4/main/revlink_network_runtime.c:468-521 | The entry point computes its specification and keeps the runtime at rest |
| `StagedMapRecord.DecodeInvertsEncode` | firmware/components/revlink_staged_map/revlink_staged_map.c:90-224 | Reading back a written record gives the record, whatever follows it |
| `StagedMapRecord.AcceptedReencodes` | firmware/components/revlink_staged_map/revlink_staged_map.c:151-224 | An accepted record is encodable, and encodes to the very bytes read exactly when its fields are zero-padded |
| `StagedMapRecord.OneByteChangeRejected` | firmware/components/revlink_staged_map/revlink_staged_map.c:151-171 | Changing any one byte of a valid staged-map record makes the reader reject it |
| `StagedMapRecord.DamageRejected` | firmware/components/revlink_staged_map/revlink_staged_map.c:151-171 | So does damage within four consecutive bytes of the body, or in the checksum |
| `StagedMapRecord.EncodeInto` | firmware/components/revlink_staged_map/revlink_staged_map.c:90-149 | The in-place writer produces the record, or refuses and leaves the buffer as it was or zeroed |
| `StagedMapRecord.DecodeFrom` | firmware/components/revlink_staged_map/revlink_staged_map.c:151-224 | The reader answers field by field as the specification does |
| `StagedMapRecord.AllowedIff` | firmware/components/revlink_staged_map/revlink_staged_map.c:259-333 | A write is allowed exactly when every gate passes, among them that the pin names the attached device |
| `StagedMapRecord.RefusedByFirstGate` | firmware/components/revlink_staged_map/revlink_staged_map.c:259-333 | A refusal names the first gate that is shut, in the order of the source |
| `StagedMapRecord.TransientIff` | firmware/components/revlink_staged_map/revlink_staged_map.c:368-379 | A refusal is transient exactly when finishing the transfer and the sync alone would turn it into a permission |
| `StagingCard.RestoreNeverMixes` | firmware/esp32p4/main/revlink_map_upload.c:223-307 | Whatever crashes and failures came before, a restart restores the record of a committed payload beside bytes of the same length and digest; they are that payload as long as no deletion failed |
| `MapUpload.Service.StageCommit` | firmware/esp32p4/main/revlink_map_upload.c:688-764 | With power going at any step the card stays sound and at most the pair being committed is added; where nothing fails it is accepted exactly when the payload is complete; a completed pinned commit is what a restart will restore, an unpinned one is not restored |
| `MapUpload.Service.WriteMetadata` | firmware/esp32p4/main/revlink_map_upload.c:105-163 | Metadata is published whole or not at all, and describes the payload beside it |
| `MapUpload.Service.RemoveStagedFiles` | firmware/esp32p4/main/revlink_map_upload.c:88-93 | Interrupted anywhere, removal never leaves metadata beside a payload it was not written for |
| `MapUpload.Service.StageBegin` | firmware/esp32p4/main/revlink_map_upload.c:554-621 | A refusal by state or argument changes nothing at all; past it, a new payload is begun whenever its names fit and nothing fails; otherwise, for an over-long name or a failed open, what was staged stays staged with digest and pin but loses its announced size; the committed payload and its metadata stay on the card |
| `UploadTargets.TargetIff` | firmware/components/accessport_protocol/revlink_accessport_protocol.c:776-825 | An upload may replace the startup screen at its exact size, or a map of 1 to 16777211 bytes whose path is maps/, a plain name without separators, zeros and double dots, and .ptm in either case; nothing else |
| `UploadTargets.TargetName` | firmware/esp32p4/main/revlink_map_upload.c:560-566 | The name an upload is staged under is the last part of its permitted path |
| `MapUpload.Service.StageAbort` | firmware/esp32p4/main/revlink_map_upload.c:766-773 | An abort ends the writer and takes the announced size from whatever is staged, and changes nothing else |
| `MapUpload.OverLongName` | firmware/esp32p4/main/revlink_map_upload.c:554-592 | A map name of 128 bytes that the allow-list permits and the name field cannot hold |
| `MapUpload.Service.RequestUpload` | firmware/esp32p4/main/revlink_map_upload.c:799-870 | A request is made exactly with consent, a staged payload, no recovery pending and no write running; whatever request the transport's allow-list permits announces exactly the payload on the card, so one whose size was lost is not permitted |
| `MapUpload.Service.StageWrite` | firmware/esp32p4/main/revlink_map_upload.c:660-686 | Writing appends and hashes exactly the data, takes every piece within the announced size if nothing fails, refuses more, and never touches the committed pair |
| `MapUpload.Service.Start` | firmware/esp32p4/main/revlink_map_upload.c:485-512 | A restart over any sound card stages a committed payload under its own pin or nothing; if nothing has failed since power came on, it restores whatever is restorable and leaves nothing else on the card |
| `MapUpload.Service.Discard` | firmware/esp32p4/main/revlink_map_upload.c:775-797 | An accepted discard leaves nothing to restore |
| `MapUpload.Service.ObserveUpload` | firmware/esp32p4/main/revlink_map_upload.c:454-482 | A verified write leaves nothing staged; any other outcome keeps the payload |
| `MapUpload.Service.AutoApply` | firmware/esp32p4/main/revlink_map_upload.c:899-1005 | An automatic write is allowed exactly with every gate open, to the pinned device and at most once between attaches, and then it is requested with the announced size and digest; where the transport's allow-list permits it, these are those of the payload on the card |
| `MapLifetime.Perform` | firmware/esp32p4/main/revlink_map_upload.c:485-1005 | Whatever call is made, only a commit commits anything, and that is the upload at hand: its bytes with the record of its name, destination, size, digest and pin; a lost size comes back only with a new upload; every request made carries the payload on the card or is not permitted |
| `MapLifetime.Lives` | firmware/esp32p4/main/revlink_map_upload.c:223-307 | From an empty card on, over any sequence of calls, power cuts at any step and restarts: each restart restores nothing, or exactly what one commit call of an earlier life had at hand, the bytes streamed in full under the name, destination and size they were begun with and the pin last given them |
| `MapLifetime.CommitSurvives` | firmware/esp32p4/main/revlink_map_upload.c:688-764 | Where nothing fails a commit is accepted exactly when the payload is complete; and a pinned commit survives a loss of power, whatever failed before it: a restart during which nothing fails restores exactly that record and payload |
| `MapLifetime.UploadSurvives` | firmware/esp32p4/main/revlink_map_upload.c:554-764 | From the first call to the next life: where nothing fails, an upload is taken whole exactly if it may begin, its names and pin fit and its pieces add up to the announced size, and a restart then restores exactly its bytes under its own names and pin |
| `MapUpload.Service.SourceOpen` | firmware/esp32p4/main/revlink_map_upload.c:325-355 | Exactly the request made is served, and with bytes of the requested digest, and of the requested size unless that is zero |
| `BackupArchive.ValidateInvertsArchive` | firmware/esp32p4/main/revlink_backup.c:471-608 | An archive of safe files reads back as exactly those files, unless a file lies under no device key or there are too many keys |
| `BackupArchive.ExportValidatesIff` | firmware/esp32p4/main/revlink_backup.c:448-616 | An exported archive may be staged and passes validation exactly when every file lies under a key of 24 hexadecimal digits, there are at most sixteen keys, and 32 + 304 per file + data is at most 512 MiB |
| `BackupImage.AcceptedIff` | firmware/esp32p4/main/revlink_backup.c:471-608 | Whatever the bytes: they are accepted as these files exactly when they are an archive of them, every file under a safe path and a device key and beside the digest of its own content, with at most sixteen keys |
| `BackupImage.ExchangedContentRefused` | firmware/esp32p4/main/revlink_backup.c:560-590 | An archive in which one file's content was exchanged for one of the same length and another digest is refused |
| `BackupImage.SafePathIff` | firmware/esp32p4/main/revlink_backup.c:115-142 | A path is safe exactly when it lies below the root, fits its field, holds only printable characters and no backslash, and between its slashes never nothing, a dot or two dots |
| `BackupImage.VisitedIff` | firmware/esp32p4/main/revlink_backup.c:105-113 | A file is exported exactly when it lies below the root and no name on the way to it is hidden or that of a working file |
| `BackupImage.ExportableIff` | firmware/esp32p4/main/revlink_backup.c:205-320 | What an export takes: up to 4096 safe files of up to 64 MiB each, none more than ten directories below the root |
| `BackupImage.DeviceKeyIs` | firmware/esp32p4/main/revlink_backup.c:448-469 | The device key of a path is the 24 hexadecimal digits between the root and the next slash, and nothing else |
| `BackupArchive.ArchiveLength` | firmware/esp32p4/main/revlink_backup.c:399-402 | The announced size, 32 + 304 per file + data, is the size written |
| `BackupArchive.Export` | firmware/esp32p4/main/revlink_backup.c:385-419 | A completed export wrote exactly the archive of every visited file; without failures every exportable tree is exported |
| `BackupMerge.MergeIsLeftUnion` | firmware/esp32p4/main/revlink_backup.c:736-843 | The merge keeps every present file apart from partial files of what it restores, adds every absent one with its exact bytes, adds nothing else, and its three counters sum to the number of files |
| `BackupMerge.SecondMergeRestoresNothing` | firmware/esp32p4/main/revlink_backup.c:736-843 | A second merge restores nothing and changes nothing; what was restored counts as identical, what conflicted still conflicts |
| `BackupMerge.CountersMean` | firmware/esp32p4/main/revlink_backup.c:759-774 | Nothing is restored exactly when every archived file was present, and then the card is unchanged |
| `BackupMerge.CountersExact` | firmware/esp32p4/main/revlink_backup.c:759-774 | The counters are exact: restored files were absent, identical ones present with the same length and digest, all others conflict, and the bytes are those restored |
| `BackupMerge.PartialNotVisited` | firmware/esp32p4/main/revlink_backup.c:105-113 | An export never contains a partial file of a restore |
| `BackupMerge.BackupReachesTheOtherCard` | firmware/esp32p4/main/revlink_backup.c:471-856 | Of an archive within the key conditions, once staged: validation and merge leave every backed-up file on the other card, with its own bytes where the card lacked it, and a second merge restores nothing |
| `BackupStore.ValidatePending` | firmware/esp32p4/main/revlink_backup.c:471-608 | The validation loop with its device table answers as the archive specification does |
| `BackupStore.Store.StageCommit` | firmware/esp32p4/main/revlink_backup.c:638-659 | A summary is kept only for a complete archive that passed validation; everything else removes the pending file; where nothing fails the answer is exactly that of the validation, or a wrong size |
| `BackupStore.Store.RestoreFile` | firmware/esp32p4/main/revlink_backup.c:781-843 | A file appears under its name only whole and with the recorded digest, and always unless the card fails; interrupted, only its partial file may differ |
| `BackupStore.Store.RestoreMerge` | firmware/esp32p4/main/revlink_backup.c:709-856 | Only with the token of the validated archive; completed it is the merge specification, interrupted it has merged some first entries completely; it is interrupted only by a failure of the card |
| `BackupStore.Store.StageBegin` | firmware/esp32p4/main/revlink_backup.c:610-625 | A busy card or a length outside 32 bytes to 512 MiB is refused with nothing changed; otherwise an empty archive is begun unless the card fails |
| `BackupRestore.Preview` | firmware/esp32p4/main/revlink_portal.c:2827-2905 | The upload handler, whatever pieces arrive: without failures it accepts exactly the valid archives of a permitted length, and never touches the files |
| `BackupRestore.CarryOver` | firmware/esp32p4/main/revlink_portal.c:2787-2960 | Export, upload and restore one after the other: without a failing card or connection the export succeeds exactly within its limits and the rest exactly when the files are restorable; a completed restore leaves every backed-up file on the other card beside what that card had, and nothing else |
| `BackupRestore.ExportedButTooLarge` | firmware/esp32p4/main/revlink_backup.c:385-419 | Nine files of 64 MiB under one device key export without an error, and no card will ever stage the archive |
| `UsbRequests.EveryUploadEndsOnce` | firmware/components/accessport_usb/revlink_accessport_usb.c:3824-4018 | After any interleaving an accepted upload is in exactly one queue or hand and not reported ended, or in none and reported ended exactly once; and it was started at most once |
| `UsbDeferral.DispatchEndsIff` | firmware/components/accessport_usb/revlink_accessport_usb.c:3847-3984 | A dispatch ends an upload exactly when a conflict is latched, the eligible devices are not one, a free device's queue is full, or none is free and either none is in use or the upload cannot be put back; otherwise it goes to the device or back to its queue |
| `UsbDeferral.DeferredWhileInUse` | firmware/components/accessport_usb/revlink_accessport_usb.c:3884-3930 | After any interleaving without a conflict and with one eligible device, an upload in hand goes to it if it is free and is put back unended if it is in use, unless the queue is full |
| `UsbDeferral.DeferredCanStart` | firmware/components/accessport_usb/revlink_accessport_usb.c:3884-3930 | An upload put back while a transaction uses the one device can still start, once and not yet ended, whatever waits before it |
| `UsbRequests.DevicesInUseStayOpen` | firmware/components/accessport_usb/revlink_accessport_usb.c:4109-4113 | After any interleaving a device with work in flight keeps its handle and generation, has that one piece of work, and is not being closed |
| `UsbRequests.StaleCheckNeverFires` | firmware/components/accessport_usb/revlink_accessport_usb.c:3697-3700 | The transaction task's check for a stale handle or generation can never refuse |
| `UsbRequests.TwoDevicesLatch` | firmware/components/accessport_usb/revlink_accessport_usb.c:346-368 | After any interleaving two eligible devices imply the latch, but for the moment between marking the second one and setting it |
| `UsbRequests.MarkingLatches` | firmware/components/accessport_usb/revlink_accessport_usb.c:3533-3543 | That moment ends: while two devices stay, at most three steps of the descriptor task set the latch |
| `UsbRequests.LatchClearsOnlyAtEmptyClose` | firmware/components/accessport_usb/revlink_accessport_usb.c:4155-4162 | Over any run from a set latch, it stays set unless a close sees no eligible device at all |
| `UsbRequests.BlockedMeansNothingStarts` | firmware/components/accessport_usb/revlink_accessport_usb.c:3697-3703 | Over any run from a set latch until such a close, no transaction is queued and none passes the look at the latch; only the one already past it may still start |
| `UsbBlockedStart.StillStartsIff` | firmware/components/accessport_usb/revlink_accessport_usb.c:3697-3775 | After any interleaving that leaves the latch set, an upload may still start before such a close, exactly when one is past the look at the latch and has its count behind it or will find a device eligible, as it does when one is now |
| `UsbRequests.LatchPassesIff` | firmware/components/accessport_usb/revlink_accessport_usb.c:3697-3701 | After any interleaving the first part of the check, handle, generation, mark and latch, is passed exactly when no conflict is latched |
| `UsbRequests.CountPassesIff` | firmware/components/accessport_usb/revlink_accessport_usb.c:3702-3702 | Its second part is passed exactly when one device is eligible; that device is the transaction's own exactly when its own was not reported gone |
| `UsbRequests.RunningWasChecked` | firmware/components/accessport_usb/revlink_accessport_usb.c:3697-3793 | A transaction that runs passed the look at the latch and then the count on the way, and its device is still open under the same handle and generation and marked as eligible |
| `UsbTransactionCheck.StartsWhileLatched` | firmware/components/accessport_usb/revlink_accessport_usb.c:3736-3775 | A run in which an upload starts with the conflict latched, because the second device was found during the readiness wait after the check |
| `UsbTransactionCheck.PassesForGoneDevice` | firmware/components/accessport_usb/revlink_accessport_usb.c:3697-3703 | A run in which the transaction of a device that is gone passes its check, because the one eligible device is another |
| `UsbScheduling.StepKeepsExclusive` | firmware/components/accessport_usb/revlink_accessport_usb.c:3652-3822 | Every step of every task keeps each device in use by at most one piece of work |
| `UsbLifecycle.AttachedIsRecognised` | firmware/components/accessport_usb/revlink_accessport_usb.c:4062-4108 | From any quiet state an accessport attached at a vacant address can become eligible and free, and nothing else changes but the latch, which is then set exactly when it is not the only one or was set before |
| `UsbLifecycle.OtherDeviceIsIgnored` | firmware/components/accessport_usb/revlink_accessport_usb.c:3451-3531 | A device that is no accessport, or whose description fails, ends free and not eligible, and nothing is latched |
| `UsbLifecycle.GoneIsClosed` | firmware/components/accessport_usb/revlink_accessport_usb.c:4109-4178 | A device that is gone and not in use can be closed: its slot is empty, every other is as before, and the latch is kept exactly while another device counts |
| `UsbLifecycle.StaysUntilGone` | firmware/components/accessport_usb/revlink_accessport_usb.c:4020-4060 | However the tasks interleave, an open device keeps its slot, handle and generation until it is reported gone |
| `UsbLifecycle.RunKeepsQueues` | firmware/components/accessport_usb/revlink_accessport_usb.c:4205-4225 | After any interleaving no queue holds more than its four places |

## Left out

- Everything behind the radio, NVS, mDNS, HTTP portal, console, OLED and power adapters: platform code and user interface.
- The remaining record builders (list, select map, download, temporary notice, delete), plain acknowledgements, identity and listing payload parsing, the delete allow-list: each would repeat the shape of a builder or a bounded parser already proved.
- SHA-256: a function parameter of 32-byte results; no property of it is assumed beyond being a function.
- Size arithmetic of the host type size_t and the 32-bit surplus counter of the decoder are unbounded here; the fields with a stated width (16, 24, 32, 64 bits) are bounded.
- The null-pointer and lock-timeout answers of the entry points, and mkdir, malloc and queue-creation failures other than as a failed operation.
- revlink_sd_storage.c is not part of this model; whether a file is current and what a download commits follow the manifest's own lookup and upsert, and the content of a download is a parameter.
- Presence updates and progress events of a listing phase, the listing exchange itself and the polite disconnect of a batch: a batch here starts from the listings it received, and a continuation assumes cleanly closed sessions.
- Annotation bytes after the note's terminator; the notes here are the strings before it.
- Backup: directories, their creation and their clash with files, hidden names aside; the walk order is a parameter, and files do not change between scan and export.
- Map upload: reading the staged payload back in pieces while hashing, the audit log, and the acceptance-test part-number pin.
- USB: cancel requests, which only set a flag, the delete path and its reporting, the root-port recovery timer, polite re-enumeration deadlines, and descriptor parsing, which decides only whether a scanned device is marked.
- USB tasks are a state machine over values. All tasks share core 0 and the client runs at priority 3, the others at 2: what the client does between two calls that can block is one step, and it may come between any two steps of the others. Each loop that counts eligible devices is one step; a change in the middle of such a loop is not modelled. An address is assumed to be reused only after its device was closed, as the host library does.
- The application's calls are taken one at a time; two tasks calling into it at once are not modelled. The delay and generation check before an automatic retry only withhold calls that the model allows.
- The network runtime's guarded reboot and credential persistence.
- Crc32.BurstChangesCrc: a window that straddles the start of a frame's checksum is not claimed, because body and trailer then change together.
- BatchChain.ChainEndsIff: asks that the listed files fit one manifest of 128 rows, because for more there is no manifest with room, and a batch then ends with a refused commit.
- The chain of batches: room in the history of 512 versions is assumed. A download of content already recorded for its path adds no version (SyncHistory.KnownContentKeepsNumber); where every batch brings other content, a full history would end the chain with a refused commit, as a full manifest does.
- BatchSync.UntimedFilesChainForEver: asks for room in the manifest, like BatchChain.ThreeLargeUntimed, because a refused commit ends the batch as failed; BatchSync.FullManifestEndsChain and BatchSync.RunBatch state that case.
- BatchSync.ChainConverges: needs a nonzero device time on every file, because an untimed one is downloaded in every batch; BatchChain.ChainEndsIff states when the chain ends without that.
- UsbRequests.TwoDevicesLatch: excepts the moment in which the scan that marked a device is still counting, because the code sets the latch only then; UsbRequests.MarkingLatches bounds it.
- UsbRequests.BlockedMeansNothingStarts: excepts the transaction that had passed its check when the latch was set, because the look at the latch is not repeated after the count and the readiness wait; UsbBlockedStart.StillStartsIff states when it does start and UsbTransactionCheck.StartsWhileLatched gives a run.
- MapLifetime.Lives: the bytes are claimed only as long as no deletion failed, like StagingCard.RestoreNeverMixes below.
- StagingCard.RestoreNeverMixes: after a failed deletion it claims the digest and length of the committed payload and not its bytes, because the restore compares nothing else.
- BackupStore.Store.RestoreMerge: the split between identical and conflicting files is claimed only when every present file could be read back, because an unreadable file counts as a conflict.
- SyncCoordinator.CancellingEndsIff: does not promise that a cancellation ends, because a completion reported then is refused.
