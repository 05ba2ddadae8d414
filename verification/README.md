# Models of the bridge's stateful cores

This project models, in Dafny 4.11, the parts of the repository in which many steps have to add up: the ZIP writer,
reader and extractor, the passive-prompt protocol, the rewriting of captured HTML, the in-place deployment of the
extension, the file store, the scope check, the progress tracker, and the small queues, buffers and accumulators
around them. `dafny verify dfyconfig.toml` checks everything.

| file | what it models |
|---|---|
| `Bytes.dfy`, `Crc32.dfy` | little-endian fields, exclusive or, the table-driven CRC-32 (section 4.4.7 of PKWARE APPNOTE.TXT) |
| `Paths.dfy` | the path helpers of `src/zipWriter.js` and `src/zipUtils.js` |
| `ZipFormat.dfy`, `ZipWriter.dfy`, `ZipReader.dfy`, `ZipRoundTrip.dfy`, `ZipForeign.dfy` | the layout of sections 4.3.7, 4.3.12 and 4.3.16 of APPNOTE.TXT, `writeZip`, `parseZipBuffer`, `entryData`, that they undo each other, and what the reader makes of the archives of other tools |
| `ZipExtract.dfy`, `ZipExtraction.dfy` | which entries are extracted and where, and the extraction itself on a disk |
| `Disk.dfy`, `Deployment.dfy`, `BundledExtension.dfy` | a file tree with fallible operations and a record of every state it has been in; publishing a tree in place; staging, backup and rollback |
| `PassivePrompt.dfy` | one request id of the passive-prompt protocol as a transition system |
| `HtmlRewrite.dfy` | `replaceHtmlTextDynamicValues` |
| `FileIndex.dfy`, `FileStore.dfy` | the index of the file store and its retention limits; the store in memory and on disk, moment by moment, with faults, crashes and restarts |
| `ScopeCheck.dfy`, `ScopePaths.dfy` | the scope tree and the free identifiers of a program; what it means to be free, by occurrence |
| `Progress.dfy`, `Tracker.dfy` | monotone text, merged progress records, the visible-progress tracker |
| `PromiseQueues.dfy`, `Timeline.dfy`, `Framing.dfy`, `Transfer.dfy`, `Chunks.dfy`, `Wrappers.dfy` | promise chains, the event timeline, stream framing, chunked transfers, shared helpers |

How the models are built:

- Code that works step by step is a `method` with the source's loops, proved against a specification function or a relation
  between the old and the new state. `Disk.FileSystem` and `FileStore.Store` keep a ghost record of every state they have
  been in, so that contracts can speak of every moment and not only of the end.
- The two protocols (`PassivePrompt`, `PromiseQueues`) are transition systems with one step per `await`. A run is any
  sequence of events, with any number of callers; theorems about runs are inductions over that sequence.
- A disk operation, or a write to the tracker's items, may fail whenever the model's `mayFault` or `mayFail` flag allows it, and
  contracts say what holds in both cases. What goes wrong in an operation of the file store is a parameter (`FileStore.Faults`),
  so the moments it passes through are a function, and theorems about whole runs are theorems about that function.
- The platform's UTF-8, DEFLATE, inflate and hash functions are parameters. `LosslessDeflate` and `FitsFormat` name
  exactly what the round trip needs of them.

## What turned out not to hold

These are places where the code does less than its name, its comments or `docs/PASSIVE_PROMPT_IDEMPOTENCY.md` say. The model follows the code,
and states for all inputs when the property does hold.

- At most one send. It holds in every run with the SQL store and with no other store. The JSON store writes its file in place
  (`src/metadataStore.js:130-132`) and replaces an unreadable one by an empty one (`src/metadataStore.js:114-128`), and the ledger without a
  store forgets at a restart; with either the number of sends has no bound (`PassivePrompt.SendsAreUnbounded`). Saves of the JSON store are neither atomic nor
  queued, so one that fails, or two that overlap, can leave a torn file behind without any crash. The condition is exact: as long as no process ends in a
  state in which the file lacks a reservation that has been used, or is being written, there is at most one send (`PassivePrompt.AtMostOneSendWhenCareful`),
  and ending it in such a state can lead to a second one (`PassivePrompt.SecondSendExactlyWhenDangerous`). The agreement of all submits holds in the same runs
  (`PassivePrompt.SubmitsAgree`).
- The status of a prompt only moves forward. A restart can set it back, exactly from a stale state: one without a store, or one in which a save is under
  way or the JSON file is behind (`PassivePrompt.StaleExactly`). Retry is offered for nothing but a reported rejection even then (`PassivePrompt.RetryOnlyAfterRejection`).
- Archives written by `writeZip` read back unless nothing was kept, a kept name begins with a drive letter, or a reader limit is exceeded
  (`ZipRoundTrip.ArchiveReadsBack`).
- A rollback of `deployBundledExtension` restores the target exactly when the target was absent or a directory. A regular file at the
  target is deleted by it (`BundledExtension.DeployBundledExtension`).
- The fingerprint behind `unchanged` does not see directories without files (`BundledExtension.ImageForgetsEmptyDirectories`). Trees are equal exactly when their
  images are and their hollow directories, those without a file anywhere below, are the same (`BundledExtension.SameTreeExactly`); when every directory below
  the roots has a file in it, the image alone decides (`BundledExtension.ImageDecides`).
- `writeJsonFile` can report failure with the new index in place (`src/storage/jsonFile.js:17-24`). `#commitRecord` then removes the bytes of a record that the
  index file lists (`FileStore.LateThrow`). Crash consistency over all runs whose imports spare stored files, with any writes, saves and removals failing and the process ending at any moment,
  holds exactly when saves cannot throw that late (`FileStore.SoundExactlyWithoutLateThrows`). After such a failure the process goes on, and its next successful save
  repairs the index file (`FileStore.NextSaveRepairs`); a process that starts before that finds a record without bytes (`FileStore.LateThrowLosesTheRestart`).
- An import with `removeSource` breaks the store exactly when the source it removes is the stored file of a record it does not replace (`FileStore.ImportSound`).
- Removing an id leaves bytes behind that no record lists exactly when the id is both an upload and an artifact (`FileStore.RemoveOrphans`).
- The tokenizer of the HTML rewriting drops a `<` that no `>` follows; exactly then it loses text (`HtmlRewrite.TokensLoseNothing`).
- A thinking update or a structured update after `finalize` can reopen the completed snapshot item (`Tracker.ReopenedByThinking`, `Tracker.ReopenedByReport`);
  the contracts of `Tracker.ProgressTracker.UpdateThinking` and `UpdateItem` say exactly when.
- A store failure during a hand-over loses the snapshot item: it stays in the store, and the tracker no longer knows it. What is lost never changes again, and a
  `finalize` that ends completes every persisted item exactly when every item lost before had been completed (`Tracker.ProgressTracker.Finalize`).
- `finalize` ends with a TypeError exactly when the response brings thinking but reports no item, nothing is tracked, and structured items were announced before
  (`Tracker.ProgressTracker.Finalize`).
- `close()` of the hub forgets its message queues (`src/browserExtensionHub.js:96`). It keeps the order of a key exactly when nothing of that key is waiting or
  running at that time; otherwise the next message of the key can start at once (`PromiseQueues.ClosingKeepsOrderExactly`).
- `#storeBytes` removes its target after any failure but EEXIST, even a file that it did not write (`FileStore.Store.StoreBytes`). Names are generated, so no
  record loses its bytes by it.

## Model

| member | source | states |
|---|---|---|
| Bytes.ReadBackU32 | src/zipWriter.js:34-38 | a 32-bit field reads back as the value modulo 2^32, wherever it lies in a buffer |
| Bytes.ReadBackU16 | src/zipWriter.js:28-32 | a 16-bit field reads back as the value modulo 2^16, wherever it lies in a buffer |
| Bytes.ReadOutside | src/zipUtils.js:8-16 | reading outside the buffer gives zero |
| Crc32.BuildTable | src/zipWriter.js:5-13 | entry n of the table is n after eight steps of the reflected polynomial |
| Crc32.Crc32 | src/zipWriter.js:15-19 | the table-driven loop computes the CRC defined one message bit at a time, for every buffer |
| Crc32.TableStep | src/zipWriter.js:17 | shifting eight message bits in one by one equals one table lookup on the low byte |
| Crc32.StepIsLinear | src/zipWriter.js:9 | one step is linear over exclusive or |
| Crc32.StepIsInjective | src/zipWriter.js:9 | one step loses nothing on 32-bit registers |
| Crc32.SameSuffix | src/zipWriter.js:15-19 | different registers stay different through any common suffix |
| Crc32.BurstIsDetected | src/zipUtils.js:178 | two buffers of equal length that differ only within four consecutive bytes have different CRCs |
| Crc32.CrcBound | src/zipWriter.js:18 | the CRC fits its 32-bit field |
| Crc32.CrcLeavesResidue | src/zipWriter.js:5-19 | every message followed by its own CRC leaves the magic number of section 4.4.7 of APPNOTE.TXT in the register, so polynomial, bit order and start value are those of CRC-32 |
| Crc32.CheckValue | src/zipWriter.js:15-19 | the CRC of the digits 1 to 9 is the standard check value 0xcbf43926 |
| Crc32.CrcOfNothing | src/zipWriter.js:15-19 | the CRC of no bytes is zero |
| Paths.JoinSplit | src/zipWriter.js:45-47 | joining the parts of a name gives the name back |
| Paths.SplitJoin | src/zipUtils.js:23-25 | parts without slashes are recovered from the joined name |
| Paths.CanonicalIsComponents | src/zipUtils.js:18-26 | the canonical path is made of the meaningful components of the raw name and of nothing else |
| Paths.CanonicalIsInjective | src/zipUtils.js:84-88 | two names have the same canonical path exactly when they have the same components |
| Paths.SafeParts | src/zipUtils.js:28-34 | a name the reader accepts has no empty and no `..` part and does not begin with a slash |
| Paths.NormalizedNameReads | src/zipWriter.js:40-48 | a normalised name is its own canonical path, names no directory, and is unsafe exactly when it has a drive prefix |
| Paths.NormalizedPartsAre | src/zipWriter.js:40-48 | the parts of a normalised name are the raw parts without the empty ones, `.` and `..` |
| Paths.SlashesAt | src/zipWriter.js:41-42 | backslashes become slashes and no other character changes |
| Paths.DrivePrefixExactly | src/zipUtils.js:30 | a drive prefix is a first part of one letter and a colon |
| ZipFormat.LocalLayout | src/zipWriter.js:91-104 | every field of a local header is where section 4.3.7 of APPNOTE.TXT puts it |
| ZipFormat.SignatureBytes | src/zipWriter.js:93-123 | the three signatures are the letters PK and two numbers, as in section 4.3 of APPNOTE.TXT |
| ZipFormat.CentralLayout | src/zipWriter.js:111-130 | every field of a central header is where section 4.3.12 puts it |
| ZipFormat.HeadersAgree | src/zipWriter.js:91-130 | both headers of a member give the same version, flags, method, times, checksum, sizes and lengths |
| ZipWriter.KeptExactly | src/zipWriter.js:79-80 | exactly the entries whose names have meaningful parts, none of them left behind by macOS, are kept |
| ZipWriter.KeptConcat | src/zipWriter.js:78-80 | each entry is judged by itself and the order stays |
| ZipWriter.MemberExactly | src/zipWriter.js:56-66 | deflated data is stored exactly when that was asked for and is shorter; checksum, size and times are the entry's |
| ZipWriter.WriteZip | src/zipWriter.js:68-157 | fails exactly when kept names collide and then names the first that does; otherwise writes the archive of the kept entries in order, with the right totals |
| ZipReader.FindEndRecord | src/zipUtils.js:48-56 | the backward scan finds the last end-record signature in the permitted range |
| ZipReader.ParseZipBuffer | src/zipUtils.js:41-109 | both loops of the reader together compute the recursive reading of the directory, errors included |
| ZipReader.ParsedIsAccepted | src/zipUtils.js:66-106 | every accepted archive has safe, pairwise different canonical paths and stays within both limits |
| ZipReader.LimitsAre | src/zipUtils.js:42-43 | a limit that is missing or zero is five thousand entries or five hundred mebibytes |
| ZipRoundTrip.ArchiveReadsBack | src/zipUtils.js:41-109 | an archive in this layout is accepted exactly when its limits and names allow it, and then gives back all members in order |
| ZipRoundTrip.MemberReadBack | src/zipUtils.js:69-106 | one directory entry reads back as the member it was written for |
| ZipRoundTrip.RoundTrip | src/zipWriter.js:78-131 | parsing what writeZip wrote succeeds exactly when some entry was kept, the limits are met and no name has a drive prefix, and reports the kept names in order |
| ZipRoundTrip.RoundTripData | src/zipUtils.js:164-180 | entryData gives back the bytes of every kept entry, stored or deflated, with its size and CRC checks passing |
| ZipForeign.EntryRead | src/zipUtils.js:69-106 | a directory entry with any extra fields, comment, times and attributes is read as its fields say or refused for the first of the reasons, links by their Unix mode, and the next entry is behind its comment |
| ZipForeign.ForeignArchiveReads | src/zipUtils.js:41-109 | a file with any front, directory, end record and comment is accepted exactly when it begins with a local header, at most 65535 bytes follow its last end record, and all entries may be taken; all are then reported in order |
| ZipForeign.DataRead | src/zipUtils.js:164-180 | the data are the bytes behind the local header's own name and extra fields, returned exactly when length and checksum are those of the directory |
| ZipExtract.CommonPrefixIsSound | src/zipUtils.js:116-136 | a stripped prefix is one whole component, not a metadata directory, and begins every regular entry outside those directories |
| ZipExtract.TargetComponents | src/zipUtils.js:138-143 | an entry's components are those of its target, with the stripped root in front when it begins with it |
| ZipExtract.NormalizedAgain | src/zipUtils.js:146-147 | normalising a target path again changes nothing |
| ZipExtract.MetadataTop | src/zipUtils.js:111-114 | a metadata-only entry has a metadata directory as its first component |
| ZipExtract.ExtractionIsInjectiveAndContained | src/zipUtils.js:220-238 | for every accepted archive, with or without a common root, unskipped targets are pairwise different, non-empty and free of `.`, `..` and empty components |
| ZipExtract.TargetExactly | src/zipUtils.js:145-162 | an entry has a target exactly when it is no directory and the components left after stripping and cleaning are ordinary: some, under no control directory, left by no archiver, without `node_modules`, and not excluded |
| ZipExtract.SkipReasons | src/zipUtils.js:145-162 | which of the reasons for skipping an entry applies, by its components |
| ZipExtract.CommonPrefixExactly | src/zipUtils.js:116-136 | a root is stripped exactly when all regular entries outside the metadata directories, and there are some, lie below one directory that is not hidden, and then that one |
| ZipExtract.StrippedExactly | src/zipUtils.js:224 | and only if the options ask for it |
| ZipExtraction.DestinationIsInjective | src/zipUtils.js:239-242 | different targets resolve to different places below the root |
| ZipExtraction.InsideTheRoot | src/zipUtils.js:265-272 | changes that concern only targets below the root leave everything outside it as it was |
| ZipExtraction.TargetResolves | src/pathSafety.js:12-31 | every target of an extraction resolves, by the rules of `path.resolve`, to its own place strictly below the root |
| ZipExtraction.ResolvesWithout | src/pathSafety.js:12-31 | empty parts and `.` do not matter to where a path leads |
| ZipExtraction.ResolvesBack | src/pathSafety.js:12-31 | `..` takes back the part before it |
| ZipExtraction.ResolveSafe | src/pathSafety.js:21-72 | accepts a path exactly when it resolves to the root or below it, no existing component below the root is a link, and those above the target are directories |
| ZipExtraction.ExtractEntry | src/zipUtils.js:239-274 | one entry: what is there is replaced only where the options allow it, and a written entry is on disk with its own bytes; on a disk without faults it is fixed which error comes first, when a conflict keeps the entry back, and that it is written otherwise |
| ZipExtraction.ExtractZipFile | src/zipUtils.js:220-291 | at every moment and after any failure only targets changed; on success every entry met its fate, which its components decide, and written ones are on disk; with targets that are free or may be replaced it succeeds, every ordinary entry is written, and those that replaced a file are the ones reported as conflicts |
| ZipExtraction.PackAndExtract | src/zipUtils.js:220-291 | writeZip and then extractZipFile of its bytes: every entry reported as written is on disk under its own name with the bytes that were packed, and when nothing stands in the way every kept entry with ordinary components is |
| Disk.FileSystem.MakeDirectories | src/extensionDeployment.js:102 | only missing directories on the way to the path are created |
| Disk.FileSystem.RemoveTree | src/extensionDeployment.js:106-107 | removes one node at a time below the path and nothing else, and all of them on success |
| Deployment.CopyTree | src/extensionDeployment.js:13-25 | changes nothing outside the target, and a completed copy into an empty place equals the source |
| Deployment.ClearDirectoryContents | src/extensionDeployment.js:27-32 | empties a directory and leaves the directory itself and everything outside it |
| Deployment.ReplaceFile | src/extensionDeployment.js:54-56 | the destination holds its old bytes until it holds the source's |
| Deployment.PublishFile | src/extensionDeployment.js:51-56 | a file entry ends equal to the source's, whatever was in its place |
| Deployment.PublishDirectory | src/extensionDeployment.js:44-49 | a directory entry ends equal to the source's, whatever was in its place |
| Deployment.EntryDone | src/extensionDeployment.js:38-57 | finishing one entry keeps all finished ones equal to the source and all others as they were |
| Deployment.EntryGone | src/extensionDeployment.js:58-61 | removing one stale entry leaves finished entries and the remaining stale ones alone |
| Deployment.AllSynced | src/extensionDeployment.js:34-60 | when every source entry is finished and nothing else is left, target and source are equal trees |
| Deployment.PublishTreeInPlace | src/extensionDeployment.js:34-60 | from any prior target a completed publish equals the source; at every moment, failures included, every file in both trees is there in its old or new version and nothing outside the target changes |
| BundledExtension.SameImage | src/extensionDeployment.js:62-82 | equal trees have equal fingerprints |
| BundledExtension.SameTreeExactly | src/extensionDeployment.js:62-82 | trees without special nodes are equal exactly when their images are and their hollow directories are the same |
| BundledExtension.ImageDecides | src/extensionDeployment.js:62-82 | when every directory below the roots has a file somewhere in it, equal images and equal trees are the same thing |
| BundledExtension.ImageForgetsEmptyDirectories | src/extensionDeployment.js:62-82 | two trees that differ in an empty directory have the same fingerprint input |
| BundledExtension.UnchangedExactly | src/extensionDeployment.js:95-100 | with a digest that tells images apart, equal fingerprints mean equal trees exactly when the hollow directories agree |
| BundledExtension.TreeFingerprint | src/extensionDeployment.js:62-82 | a fingerprint depends on the regular files of the tree and their relative paths alone |
| BundledExtension.WorkingCopiesApart | src/extensionDeployment.js:103-105 | source, target, stage and backup are pairwise disjoint |
| BundledExtension.Prepare | src/extensionDeployment.js:106-115 | on success stage equals source and backup equals target, and only those two places changed |
| BundledExtension.RollBack | src/extensionDeployment.js:124-127 | a complete rollback makes the target equal to the backup, or removes it when there was no directory |
| BundledExtension.Publish | src/extensionDeployment.js:116-128 | ends deployed with the target equal to the stage, or rolled back |
| BundledExtension.NoGapThroughStage | src/extensionDeployment.js:119 | no gap with respect to the stage is no gap with respect to the source |
| BundledExtension.DeployBundledExtension | src/extensionDeployment.js:84-134 | which tree the target holds for every outcome, when rollback restores it, no gap in a successful run, nothing else touched at any moment, and what `unchanged` says of the trees |
| PassivePrompt.SendsAreAccountedFor | src/bridge/passivePromptService.js:21-70 | in every run of any store, sends exceed one only by the number of restarts that forgot a used reservation |
| PassivePrompt.AtMostOneSend | src/bridge/passivePromptService.js:21-70 | with the SQL store the command is issued at most once in every run |
| PassivePrompt.SendsAreUnbounded | src/metadataStore.js:114-132 | with any other store there are runs with any number of sends |
| PassivePrompt.AtMostOnceExactlyWithSql | src/bridge/passivePromptService.js:21-70 | at most one send in every run, exactly for the SQL store |
| PassivePrompt.AtMostOneSendWhenCareful | src/bridge/passivePromptService.js:21-70 | with any store at most one send, as long as no process ends while a used reservation may be forgotten, unless the next one finds it all the same; saves may fail, overlap and leave torn files |
| PassivePrompt.SecondSendExactlyWhenDangerous | src/metadataStore.js:114-132 | after a careful run, ending the process can lead to a second send if and only if a restart may then forget a used reservation |
| PassivePrompt.RunWindowed | src/metadataStore.js:130-132 | in every run the file counts as being written exactly while a save of some caller is under way, and only with the JSON store |
| PassivePrompt.SavesMayTear | src/metadataStore.js:130-132 | one foreign save that fails, or two that overlap and succeed, can tear the file of a process that goes on, after which ending it is dangerous if something was sent |
| PassivePrompt.AtMostOneSendWithCalmJson | src/metadataTurnStore.js:80-88 | with the JSON store, runs without foreign, failed or interrupted saves are careful, and no restart sets the status back |
| PassivePrompt.UndisturbedSends | src/bridge/passivePromptLedger.js:69-98 | a call that finds no reservation and is not disturbed sends |
| PassivePrompt.LaterCallsRepeat | src/bridge/passivePromptService.js:31-43 | a call that finds a submission returns its proof, one that finds a rejection its error, and one that finds the command in flight reports uncertainty; none sends |
| PassivePrompt.AnswerIsRecorded | src/bridge/passivePromptService.js:45-69 | a confirmation is recorded as submitted and its proof returned, a refusal is recorded as rejected and its error returned |
| PassivePrompt.MarkAnswers | src/bridge/passivePromptService.js:47-65 | whatever has become of the record in between: a confirmed call returns the recorded proof or reports uncertainty, a refused one the recorded error or its own |
| PassivePrompt.ReserveCounted | src/metadataTurnStore.js:49-89 | every step of a reservation keeps at most one call that may send |
| PassivePrompt.ReserveLocking | src/metadataTurnStore.js:207-217 | the mutation chain excludes, and a call that found no record still finds none when it writes |
| PassivePrompt.SubmitsAgree | src/bridge/passivePromptService.js:30-43 | in every careful run of every store, so in every run with the SQL store: all successful submits of one id return the proof that the one command reported, and none is told it was rejected |
| PassivePrompt.RetryOnlyAfterRejection | src/bridge/passivePromptLedger.js:294-302 | in every run of every store retry is offered only for a rejection that the command reported; in careful runs it was the one command |
| PassivePrompt.StatusMovesForward | src/metadataTurnStore.js:92-141 | storage status only moves from UNKNOWN to INFLIGHT to one terminal state, which never changes, unless a process ends in a stale state and the next one finds something else |
| PassivePrompt.StaleExactly | src/metadataStore.js:114-132 | some step can set the status back if and only if the state is stale: there is a record, and the store is the memory, or it is the file and a save is under way or the file is behind |
| PassivePrompt.RememberingRuns | src/metadataTurnStore.js:49-89 | with the SQL store every run is careful and never set back, and with any store every run whose restarts find what was recorded |
| PassivePrompt.RunTruthful | src/bridge/passivePromptLedger.js:165-212 | in every run of every store, whatever is recorded, on file, being saved, about to be marked or returned is INFLIGHT or repeats what the command reported |
| PassivePrompt.MarkTruthful | src/bridge/passivePromptLedger.js:165-212 | every step of a mark, failing or not, keeps that true |
| PassivePrompt.OwnerChangesNothing | src/bridge/passivePromptLedger.js:116-163 | owner reconciliation changes neither record nor sends and never offers a retry |
| PassivePrompt.OwnerIsHeard | src/bridge/passivePromptLedger.js:116-163 | an undisturbed owner call is recorded exactly when the command is in flight, not reconciled and old enough, and otherwise ends with an error |
| PassivePrompt.ShownToOperators | src/bridge/passivePromptLedger.js:271-330 | over runs with the SQL store, or of one process: the recorded status; retry exactly for a rejection; reconciled exactly if an owner did so while the command is in flight, and otherwise in need of review exactly once it is old enough |
| PassivePrompt.SubmissionWins | src/bridge/passivePromptLedger.js:271-330 | a submission and a reconciliation that race leave the same record and view in either order, and the submission is what is shown |
| HtmlRewrite.TokensLoseNothing | scripts/e2e/dom-fixture-capture.js:72 | the tokens make up the document exactly when no `<` is left open |
| HtmlRewrite.CollectSegments | scripts/e2e/dom-fixture-capture.js:73-79 | the segments tile the text, one for each text token, in order |
| HtmlRewrite.FindIsLongest | scripts/e2e/dom-fixture-capture.js:82-88 | the first match in the sorted list is the longest match, and the first listed of equally long ones |
| HtmlRewrite.FindEdits | scripts/e2e/dom-fixture-capture.js:86-95 | the loop finds the edits of a leftmost-longest replacement |
| HtmlRewrite.Locate | scripts/e2e/dom-fixture-capture.js:97-105 | an offset is located in the segment that holds it, from either side |
| HtmlRewrite.EditedIsCell | scripts/e2e/dom-fixture-capture.js:107-121 | one edit made by original offsets leaves in each token what stands for its own characters, although later edits were made before |
| HtmlRewrite.MakeEdits | scripts/e2e/dom-fixture-capture.js:107-121 | all edits made from last to first leave in each token what stands for its own characters |
| HtmlRewrite.PieceIsReplace | scripts/e2e/dom-fixture-capture.js:86-95 | what stands for all characters of the text is the plain replacement |
| HtmlRewrite.RewriteRefinesReplace | scripts/e2e/dom-fixture-capture.js:71-123 | every tag comes out unchanged and in place, and the text through all tags is the leftmost-longest replacement of the original text |
| HtmlRewrite.RewriteReadsBack | scripts/e2e/dom-fixture-capture.js:71-123 | of the result itself: unless a replacement brings in a `<`, its tags are those of the original document and its text is the leftmost-longest replacement of the original text |
| HtmlRewrite.ReplaceHtmlTextDynamicValues | scripts/e2e/dom-fixture-capture.js:71-123 | the in-place algorithm computes that rewriting |
| HtmlRewrite.RewriteNothing | scripts/e2e/dom-fixture-capture.js:80 | without replacements the document is unchanged exactly when it has no text or leaves no `<` open |
| FileStore.RunIsSound | src/fileStore.js:118-164 | over every run of operations with any faults, crashes at any moment and restarts: memory and index file are sound at every moment exactly when no step breaks them |
| FileStore.SoundExactlyWithoutLateThrows | src/storage/jsonFile.js:17-24 | all runs of all new stores, with imports that spare stored files, are sound at every moment if and only if saves cannot throw with the new index in place |
| FileStore.CrashReopens | src/fileStore.js:97-116 | a process that dies has passed through some of an operation's moments, and the next one works with what is on disk |
| FileStore.OpSound | src/fileStore.js:147-164 | one operation is sound at every moment exactly when it does not break the store, and if it does, only its last moment is not |
| FileStore.PutSound | src/fileStore.js:137-190 | storing a file is sound at every moment exactly unless its save throws late and the new file can be removed; what the process works with stays consistent even then |
| FileStore.CommitKeeps | src/fileStore.js:147-164 | after the bytes are there, a commit keeps both indexes consistent, with the one exception of a late throw; a successful save makes an inconsistent index file sound |
| FileStore.ImportSound | src/fileStore.js:221-261 | an import, images included, is sound at every moment exactly unless its save throws late or the removed source belongs to a record |
| FileStore.RemoveSound | src/fileStore.js:409-422 | a removal is sound at every moment, even from an index file that was not |
| FileStore.PruneSound | src/fileStore.js:448-451 | a pruning is sound at every moment, even from an index file that was not |
| FileStore.NextSaveRepairs | src/fileStore.js:118-121 | whatever state the index file is in, operations leave the running store consistent, and the next successful save makes the index file sound |
| FileStore.LateThrowLosesTheRestart | src/fileStore.js:158-161 | after a late throw the process has a consistent index, and a restart would find a record without its bytes |
| FileStore.PutLeaves | src/fileStore.js:147-190 | a stored record has its bytes, the replaced ones are gone unless they cannot be removed, and every other record keeps its own |
| FileStore.ImportTakesSource | src/fileStore.js:221-261 | an import that succeeds takes its source away exactly when that is the file it replaces, or when it was asked to and the source is not an image that is served under the id |
| FileStore.RemoveOrphans | src/fileStore.js:409-422 | a removal leaves unlisted bytes behind exactly when the id was both an upload and an artifact |
| FileStore.Store.constructor | src/fileStore.js:97-116 | a process starts with what the index file holds, and is sound exactly when that is consistent |
| FileStore.Store.SaveIndex | src/fileStore.js:118-121 | the index file changes before the memory, which changes only when the save succeeds |
| FileStore.Store.StoreBytes | src/fileStore.js:137-145 | succeeds exactly for a new name and a complete write and changes no other file; a file that was there is left alone when the write finds it (EEXIST) and removed when the write fails for another reason |
| FileStore.Store.Put | src/fileStore.js:166-190 | passes through the specified moments; succeeds exactly when write and save do, and is sound at every moment exactly without a late throw |
| FileStore.Store.Import | src/fileStore.js:221-261 | passes through the specified moments; the copy has the source's bytes, and every moment is sound exactly when nothing breaks |
| FileStore.Store.Remove | src/fileStore.js:409-422 | both entries of the id go before the bytes of the first, every moment is sound, and every other record keeps its bytes |
| FileStore.Store.PruneArtifacts | src/fileStore.js:424-452 | the shorter index is saved before any bytes go, every moment is sound, and the artifacts listed afterwards are those not removed and meet both limits |
| FileIndex.RetentionIsGreedy | src/fileStore.js:434-446 | an artifact goes exactly when it would break a limit on top of the newer ones that are kept |
| FileIndex.KeptOrPruned | src/fileStore.js:434-446 | every listed artifact is either removed or kept |
| FileIndex.PrunedOnce | src/fileStore.js:434-451 | what the index lists after pruning meets both limits, so pruning again would remove nothing |
| FileIndex.RemovesNothing | src/fileStore.js:434-446 | nothing is removed exactly when the limits hold already |
| ScopeCheck.ScopeTree.FindFunctionScope | scripts/source-scope-check.js:62-66 | the climb finds the nearest function or program scope |
| ScopeCheck.ScopeTree.Visit | scripts/source-scope-check.js:112-203 | visiting a node adds to the tree what the node's bottom-up summary says: names here, `var` names at the function, and the references it leaves open |
| ScopeCheck.ScopeTree.VisitFunction | scripts/source-scope-check.js:129-146 | a function's own names, parameters and hoisted names close references inside it |
| ScopeCheck.ScopeTree.VisitDefaults | scripts/source-scope-check.js:82-92 | exactly the default and key expressions of a parameter that are evaluated are visited |
| ScopeCheck.GrownTwice | scripts/source-scope-check.js:149 | two visits in one scope add up, although the second may declare names that the first left open |
| ScopeCheck.ChildGrows | scripts/source-scope-check.js:147-151 | what a child scope declares closes references inside it and nothing outside |
| ScopeCheck.IsResolved | scripts/source-scope-check.js:218-223 | the parent-chain loop finds a declaration exactly when some scope on the chain has one |
| ScopeCheck.CollectUnresolved | scripts/source-scope-check.js:216-228 | reports exactly the references of the subtree that no scope around them declares and that are not allowed, each as often as it was made, those of a scope before those of its children |
| ScopeCheck.FindFreeIdentifiers | scripts/source-scope-check.js:230-238 | the tree built step by step and then climbed reports exactly the free identifiers of the bottom-up definition, in its order and as often |
| ScopePaths.FreeByOccurrence | scripts/source-scope-check.js:109-228 | a reference is free exactly when some way through the program leads to it on which no scope binds its name: `var` binds in the nearest function or the program from any depth of blocks, `let`, classes, imports and function names where they stand, parameters, `arguments` and own names inside |
| ScopeCheck.OpenCloses | scripts/source-scope-check.js:216-228 | a scope closes exactly the references in it and in the scopes below that have one of its names |
| ScopeCheck.OrderIsIrrelevant | scripts/source-scope-check.js:109-206 | exchanging two parts of a program or block does not change which identifiers are free, nor how often |
| Progress.MergeMonotonicText | src/progressText.js:1-14 | the loop computes the merge that the following lemmas describe |
| Progress.MergeJoinsAtLongest | src/progressText.js:4-13 | unless one text begins with the other, they are joined along their longest overlap of at least four characters, in either direction, and without one the longer text stands |
| Progress.MergeNotShorter | src/progressText.js:1-14 | merged text is at least as long as both inputs |
| Progress.MergeAbsorbs | src/progressText.js:1-14 | merging once more with either input changes nothing |
| Progress.MergeProgressRecords | src/bridge/requestState.js:20-53 | the nested loops compute the fold over all items in order |
| Progress.MergedIdsAreUnique | src/bridge/requestState.js:27-31 | the result has one record for each id that was contributed, in first-seen order |
| Progress.FirstSeenOrder | src/bridge/requestState.js:28 | later items only append to the order |
| Progress.MergedRecordsAreFair | src/bridge/requestState.js:33-49 | a record's revision is the largest contributed, and the text of a record that is `thinking` from some contribution on, whatever kinds are contributed, is never shorter than that contribution |
| Progress.CombinePrefers | src/bridge/requestState.js:33-49 | a later contribution is preferred if its revision is not lower or it brings the first text; every field is the preferred one's where it has one, and only `thinking` texts are merged |
| Progress.PlainTextIsLatest | src/bridge/requestState.js:44-46 | a record that is never `thinking` and gets its revisions in order has the last text contributed |
| Progress.RecordIdIs | src/bridge/requestState.js:16-18 | an item is filed under its id, its key, or its kind with its hint or position |
| Progress.DecimalReadsBack | src/bridge/requestState.js:16-18 | the position in an id reads back, so different positions give different ids |
| Tracker.NormalizedAdvances | src/visibleProgressTracker.js:28-53 | every field of the stored content is the report's where that says something, else the old one, else the default; only `thinking` texts are merged; revisions never fall |
| Tracker.ProgressTracker.UpdateThinking | src/visibleProgressTracker.js:93-133 | what the snapshot shows after a first, a further and an empty text; its text and revision only grow; a completed item is reopened exactly when it is the snapshot's own |
| Tracker.ProgressTracker.UpdateItem | src/visibleProgressTracker.js:148-194 | what is stored of a report; ids keep their items, revisions never fall, a completed one stays completed; the snapshot item is handed over to the first `thinking` item of a new id, and a refused hand-over leaves it in the store unknown to the tracker |
| Tracker.ProgressTracker.UpdateItems | src/visibleProgressTracker.js:139-195 | exactly the known and the reported ids are tracked, the snapshot is handed over exactly when a reasoning item of a new id is reported, and no persisted item is reopened unless the snapshot had been completed |
| Tracker.ProgressTracker.Finalize | src/visibleProgressTracker.js:197-261 | when it ends every tracked item is closed, and every item completed exactly if none was lost in progress; texts are the last reported; what becomes of the snapshot, and exactly when it crashes |
| Tracker.ProgressTracker.TakeAll | src/visibleProgressTracker.js:70-74 | over any sequence of updates, failing ones included: ids keep their items, revisions never fall, completed items stay completed before `finalize`, the snapshot's public name goes to one id at most, and exactly what was reported is tracked unless an update failed, and then the text of an id never reported as `thinking` is its last one |
| Tracker.LastTextToldIsLast | src/visibleProgressTracker.js:31-33 | that is the text of the last report of the id that has one |
| Tracker.NoTextTold | src/visibleProgressTracker.js:31-33 | and the text from before when no report has one |
| Tracker.LogicalIdIs | src/visibleProgressTracker.js:9-12 | a report is filed under its id, its key, or its kind with its hint or position |
| Tracker.ProgressTracker.RunTurn | src/visibleProgressTracker.js:89-261 | any such sequence that ends in `finalize`: with a store that does not fail every persisted item ends completed, otherwise every tracked one does if `finalize` ends; from a new tracker it crashes only after a failed update |
| Tracker.ReopenedByThinking | src/visibleProgressTracker.js:93-117 | the run in which a thinking update after finalize reopens a completed item |
| Tracker.ReopenedByReport | src/visibleProgressTracker.js:148-182 | the run in which a structured report after finalize reopens a completed item |
| Tracker.LatestReports | src/visibleProgressTracker.js:199-208 | every reported id once, in first-seen order, with the report that no later one displaces and whose revision is the highest unless a text won over an empty one |
| Tracker.LatestOf | src/visibleProgressTracker.js:199-208 | the loop finds the report that stands for every id |
| PromiseQueues.OneAtATimeInOrder | src/browserExtensionHub.js:329-336 | in every run in which each closing of the hub finds the tasks of a key settled, a task of it begins only after all earlier ones have settled, deletions of idle keys included |
| PromiseQueues.NeverOvertaken | src/browserExtensionHub.js:329-336 | for two tasks of a key it is enough that the earlier one had settled at every closing between their calls |
| PromiseQueues.FailureBlocksNobody | src/mutex.js:4-18 | however earlier tasks ended, the next one of a key may start |
| PromiseQueues.StaysInOrderExactly | src/browserExtensionHub.js:329-336 | after any run, no continuation whose closings find the key settled can get it out of order if and only if no unsettled task of it was called before the last closing |
| PromiseQueues.ClosingKeepsOrderExactly | src/browserExtensionHub.js:87-97 | after any run, closing the hub keeps the order of a key, against the very next call and against every continuation, if and only if nothing of the key is waiting or running |
| PromiseQueues.CleanUpKeeps | src/browserExtensionHub.js:333-335 | deleting a key whose last task has settled keeps the queue's order |
| Timeline.RunsExpand | src/eventBus.js:104-110 | a timeline's entries stand for exactly the signatures told, in order |
| Timeline.RunsDiffer | src/eventBus.js:104-108 | adjacent entries differ |
| Timeline.AddToLast | src/eventBus.js:109-110 | truncating before adding an event or after gives the same timeline |
| Timeline.EventBus.EmitUser | src/eventBus.js:86-118 | the buffer holds exactly the last events, and each retained timeline the last runs of what its request was told |
| Framing.FramesInTwo | src/debugClient.js:24-40 | framing what has arrived, and then its rest with what follows, is framing it all |
| Framing.Feed | src/codexRpcServer.js:265-269 | the loop takes exactly the complete frames from the front of the buffer |
| Framing.ReadAll | src/codexRpcServer.js:261-278 | the messages and the rest are those of the whole stream, however it is cut |
| Framing.ChunksDoNotMatter | src/debugClient.js:57-64 | two ways of cutting the same stream give the same frames and rest |
| Transfer.EncodeIsInjective | src/bridge/transferIntegrity.js:41 | different bytes have different base64 texts (section 4 of RFC 4648) |
| Transfer.QuadHoldsBits | src/bridge/transferIntegrity.js:41 | four letters of the alphabet of RFC 4648 hold the 24 bits of three bytes, the highest first, and the rest is padding |
| Transfer.IntactIsCanonical | src/bridge/transferIntegrity.js:40-43 | base64 content passes exactly when it is the canonical encoding of bytes of the announced size and hash |
| Transfer.TransferAccumulator.Append | src/bridge/transferIntegrity.js:26-34 | a chunk is taken exactly when it is the next one within what was announced, and a refused one changes nothing |
| Transfer.TransferAccumulator.Finish | src/bridge/transferIntegrity.js:36-45 | gives back only the complete, intact concatenation of all chunks |
| Transfer.ReceiveAll | src/bridge/transferIntegrity.js:48-52 | whatever is cut into the announced chunks is accepted in order and given back exactly if it is intact |

## Left out

- DEFLATE, UTF-8 and SHA-256: parameters of the models; the round trip assumes only what `LosslessDeflate` and `FitsFormat` say.
- `dosDateTime` and the file system calls of `writeZip`: the time fields of an entry are inputs, and the archive is a value.
- Streams of entries that are directories: `writeZip` never writes one, and the reader only reports them.
- ZipExtraction.ResolveSafe: does not model real paths, so the root may not itself be a link; a symbolic link is a node of its own kind, and so are pipes and sockets, which the source would let pass.
- ZipExtraction.ExtractZipFile: does not model processes that change the disk at the same time, nor the sizes and hashes in its report.
- Deployment.CopyTree: `fs.stat` follows symbolic links at the root of a tree; in the model a link there is not a directory.
- BundledExtension.DeployBundledExtension: sources that contain the target or lie in it, and a target that is the root of the file system, because the code does not consider them; the token is assumed to be unused.
- BundledExtension.TreeFingerprint: the concatenation that is hashed and the locale order of names are not modelled, only that the digest is a function of the regular files.
- PassivePrompt.AtMostOneSend: one request id, because rows of different ids do not touch each other; the mutation chain is an exclusive lock without its order, and a chain of overlapping saves may leave the content of any of them; both only add runs.
- PassivePrompt.OwnerChangesNothing: the evidence is taken as valid, since checking it reads nothing but the request; only the first hundred events of a turn are read by the source, and a turn has no other events.
- Turn records written outside the ledger (`createTurn`, `updateTurn`), threads, downloads and items of the metadata store, except that their saves rewrite the JSON file.
- HtmlRewrite.ReplaceHtmlTextDynamicValues: the sort and the tokenizer's regular expression are functions, as they are library calls in the source.
- FileStore.Store.Put: the record's remaining fields are carried along as one; generated names are assumed not to be in use by a record; an image that is rejected is not stored, so it is no step of a run.
- FileStore.Store.Import: what `normalizeImageArtifact` makes of an image's metadata, or that it rejects it, is an input; a source that cannot be read counts as a failed write.
- FileStore.Store.constructor: an index file that is not valid JSON makes `#init` throw; no save leaves one.
- FileIndex.PrunedOnce: the order of artifacts of the same age is not fixed.
- Reading stored files back (`readForTransport`, `openVerifiedReadable`): they change nothing, and races on open files are the environment's.
- ScopeCheck.ScopeTree.Visit: starts from a syntax tree in which every node that only visits its children is a `Group`; Acorn, positions and the lists of global names are inputs. Scopes are kept in one list and refer to each other by index instead of by reference.
- Progress.MergedRecordsAreFair: an empty string and a missing field are the same, as they are to the source except where it copies fields.
- Tracker.ProgressTracker.Finalize: the events sent beside each write are not modelled, and neither are updates that arrive while `finalize` is between two writes.
- Tracker.NormalizedAdvances: sequence numbers, times, hints, sources and flags of a content are left out.
- Timeline.EventBus.EmitUser: normalising and compacting an event are inputs; the debug buffer is filled by the same operation.
- Framing.ReadAll: decoding bytes to text, and what is done with a frame, which is a parameter.
- Transfer.TransferAccumulator.Append: the checks of the metadata's own form are not modelled.
- Interactive clients, browser automation, HTTP routes and configuration: they would only add easy members.
