# PaperClaw: a verified model

PaperClaw files PDFs from an inbox into a library, once per content hash, on a local disk or on
Google Drive. This project models that core in Dafny and proves what it keeps when any single file
operation, Drive request or SQL statement can fail, take effect without being reported, be torn, or
be the last thing the process does.

`dafny verify dfyconfig.toml` checks everything.

## How it is organised

| file | part of the system |
|---|---|
| `Basics.dfy`, `Faults.dfy` | hashes; the fate an operation can meet (`Ok`, `Fail`, `Crash`, with what it leaves behind) |
| `Naming.dfy` | slugs, truncation, directory names, collision suffixes |
| `Pipeline.dfy` | the per-file pipeline over any storage backend, and the grammar of its calls |
| `Local.dfy`, `LocalStorage.dfy`, `LocalTheorems.dfy`, `LocalCommand.dfy` | the local backend and the `process` command: state functions, the mutable class proved equal to them, theorems over whole histories, and what the command does spelled out |
| `Store.dfy` | the SQLite tables |
| `Drive.dfy`, `DriveStorage.dfy`, `DriveTheorems.dfy`, `DriveRuns.dfy`, `DriveEntries.dfy` | the Drive backend, its index and scan cache, and the scan of the worker; theorems about calls and scans, about whole runs, and about names, fields and conditions spelled out |
| `Channel.dfy` | the push-channel life cycle |
| `Webhook.dfy`, `Wakeup.dfy` | the notification endpoint; producers, handlers and the worker as interleaved steps |
| `Listing.dfy` | the `list` command |

Code that changes state step by step is a class whose methods assign its fields. Each such method is
proved equal to a function from state to state, and the theorems are about those functions: over every
sequence of file names, every sequence of commands or scans, and every assignment of fates to the
operations they meet. An operation that meets a `Crash` is the last one with an effect, so a history in
which commands crash and are started again covers a stop between any two writes.

## What is taken as given

- The classifier returns the hash it was given as `id` and `content_hash`
  (`internal/document/classify.go:122-131`); this is built into the model.
- The hash is an uninterpreted function: no theorem uses freedom from collisions.
- A `metadata.json` whose write was torn does not parse.
- Nobody else changes the directories during one local command; between commands the user may add and
  remove inbox files at will. Inbox, library and processed directory are different directories.
- On Drive, size and modification time of a file determine its content, an upload takes place as a
  whole or not at all, and only the daemon writes to the library folder. The inbox may change at any time.
- The clock does not go back where a theorem says so (`Timely`, `RegistersAgainIff`).
- Lower-casing is any rune map that fixes `a`-`z`, `0`-`9` and `-` and maps `A`-`Z` to `a`-`z`.
- A statement made with a cancelled context is a failed statement.

## Where the code does less than its description

Each point is proved, with the exact condition under which it happens.

- An existence test that fails for any reason counts as "name is free"
  (`internal/storage/local/local.go:96-99`). `WriteEntry` then reuses an existing directory exactly when a
  name tried before the first free one was misjudged (`EntryDirFresh`). If that directory holds a complete
  entry, it is overwritten and its PDF can be lost (`HiddenEntryOverwritten`); `EntriesKeptIff` says
  exactly when, whatever other faults the write meets. The no-loss theorems have this one proviso; the
  bound on copies per hash and the validity of metadata do not need it.
- The duplicate check skips metadata it cannot read (`internal/storage/local/local.go:76-79`). A filed
  PDF is filed again if and only if every entry with its hash is unreadable (`DuplicatedIffMasked`); in
  general the entries for a hash number at most one, or as many as before, plus those scans (`RunCopies`).
- A move to the processed area does not check the suffixed name (`internal/storage/local/local.go:133`).
  An earlier processed file is overwritten exactly when the destination holds other bytes
  (`ProcessedOverwrittenIff`). The no-loss theorem therefore goes through the library copy.
- `docs/plan.md:109` says that a failure moves the source PDF to quarantine. The code copies it, and the
  original stays in the inbox (`QuarantinedIsRecorded`).
- The Drive index can miss an entry not only when `PutDocument` fails, but also when the metadata upload
  takes place and its success is not reported. `IndexConservation` counts both, exactly.
- Drive re-verifies a file and then downloads it. If the file is edited between the two, a listing
  that repeats a name can file and move the same Drive file twice (`EditInTheGap`). When nothing fails it is
  moved exactly as often as a download of it serves content new to the index (`MovesCounted`,
  `MovedTwiceIffRevised`); if what is served is what was verified, once at most (`OncePerScan`).
- The end of a scan records a successful poll and clears the error text its own files recorded
  (`FinishedScanClearsError`); `ErrorSurvivesIff` says exactly when a text is left.
- A graceful stop asks Drive to stop the channel but leaves its row
  (`internal/serve/channelmgr.go:92-97`). The next run takes that channel for fresh and registers no other
  until the lead time before the stored expiry (`RestartDeafIff`).
- `README.md:154` of the repository says that channel setup is deferred until authentication succeeds
  and that the next poll picks it up. The renewal loop never asks for the start page token again, so a
  run that starts without one never registers a channel (`NoTokenNoChannel`, `RegistersIffToken`).
- Refused renewals do not back off: the old row stays, and the loop sleeps zero before the next attempt
  exactly when the stored channel is due (`RefusalsDoNotBackOff`).
- Of fully uploaded Drive files that share a name only the one listed last is cached. The others stay in the
  inbox untouched until a later scan (`CachedIffLast`, `ShadowedWaits`).
- `truncateSlug` looks for a hyphen only inside the first `maxLen` characters, so a word that ends
  exactly at the limit is dropped as well (`TruncateSlugExact`).

## Model

| member | source | states |
|---|---|---|
| Naming.ToSlug | internal/document/document.go:15-30 | The builder loop with its `prevWasSep` flag and final trim computes exactly the maximal runs of `[a-z0-9]` of the normalised input, joined by single hyphens |
| Naming.BuiltStep | internal/document/document.go:20-28 | One iteration keeps the builder equal to a finished slug plus at most one pending hyphen, for a word character, a first separator and a repeated separator |
| Naming.CanonicalIffShape | internal/document/document.go:15-30 | "Words joined by single hyphens" and "hyphens only between two word characters" are the same set of strings |
| Naming.WordsOfJoin | internal/document/document.go:15-30 | Splitting a joined slug gives the words back |
| Naming.JoinOfWords | internal/document/document.go:15-30 | Joining the words of a string whose hyphens are all followed by a word character gives the string back, up to a leading hyphen |
| Naming.SlugCanonicalIdempotent | internal/document/document.go:15-30 | Every slug is canonical, keeps exactly the words of the input, and is its own slug |
| Naming.GermanSpelling | internal/document/document.go:10-13 | Wherever it stands, each of the seven German letters is spelled with its two ASCII letters, and any other character stays |
| Naming.TruncateSlugExact | internal/document/document.go:32-41 | Truncation keeps the canonical form; a cut slug is the longest prefix shorter than the limit that ends at a word boundary, with whole words, or exactly `maxLen` characters of a first word at least that long |
| Naming.DirNameRoundTrip | internal/document/document.go:46-50 | For schema-valid dates the name splits at `_` into date, vendor slug cut at 30 and description slug cut at 40, formatting these again gives the name, and it has at most 82 characters |
| Naming.DirNameInjective | internal/document/document.go:46-50 | Equal names have equal dates and equal truncated slugs |
| Naming.EntryNameSafe | internal/storage/local/local.go:73 | No entry name, with or without a suffix, is `_quarantine` or `process.log`, or contains a slash |
| Naming.DecimalRoundTrip | internal/document/document.go:60 | Reading a printed suffix number gives the number |
| Naming.CandidateSpelled | internal/document/document.go:56-61 | The names tried are the base, then the base, a hyphen, and the index in decimal digits without leading zeros |
| Naming.CandidateInjective | internal/document/document.go:55-64 | No two names the suffix loop tries are equal |
| Naming.TakenPrefixBounded | internal/document/document.go:55-64 | Pigeonhole: if the first n candidates are all taken, at least n names are |
| Naming.FreeIndex | internal/document/document.go:55-65 | A free candidate exists among the first \|taken\| + 1, and there is a least one |
| Naming.UniqueDirName | internal/document/document.go:55-65 | The unbounded loop terminates for every finite set of taken names and returns the least free candidate |
| Naming.LeastIndexUnique | internal/document/document.go:59-64 | An index that is free with all smaller ones taken is the one chosen |
| Naming.OverlookedCollides | internal/document/document.go:55-65 | If the existence test overlooks some names, the result collides if and only if a candidate before the first free one was overlooked |
| Pipeline.CallGrammar | internal/document/pipeline.go:80-168 | For every backend, state and outcome of every stage: run over a backend in which every operation writes itself down when invoked, the run has the same result, its storage calls are those of the table of exits and follow the grammar, and the observer is told of k complete stages in order, then at most one started and failed |
| Pipeline.ScriptGrammar | internal/document/pipeline.go:80-129 | The grammar that CallGrammar proves of every recorded run holds of each row of the table: Quarantine is called exactly once, under the stage of the result, if and only if the run is quarantined; the original is moved only right after a successful write; clean-up is last, once, if and only if the read succeeded |
| Pipeline.ResultSays | internal/document/pipeline.go:80-129 | For every backend: the result carries the hash that was read, or none if the read failed; a stage is named if and only if it is quarantined, an entry only if it is processed |
| Pipeline.AnswerValidIff | internal/document/schema.json:17-68 | An answer passes the schema if and only if its type is one of the seven, its dates are four, two and two digits, vendor and summary are not empty, the amount is not negative, the currency has three characters or is absent, and the file has a name |
| Pipeline.FallbackDescription | internal/document/pipeline.go:158-161 | Without a description a document is described by its file name up to the last dot |
| LocalStorage.Storage.ListInbox | internal/storage/local/local.go:38-50 | The listing holds each PDF of the inbox exactly once and nothing else |
| LocalCommand.IsPDFIff | internal/storage/local/local.go:174-176 | A name counts as a PDF if and only if its last four characters are a dot and "pdf" in either case |
| LocalStorage.Storage.ReadPDF | internal/storage/local/local.go:54-61 | Reads path and hash, or an error, as `World.ReadPDF` says, and changes nothing else |
| LocalStorage.Storage.IsDuplicate | internal/storage/local/local.go:64-85 | The early-exit scan in any reading order answers whether some readable complete entry has the hash |
| LocalStorage.Storage.WriteEntry | internal/storage/local/local.go:88-119 | The imperative write (name, directory, PDF, transcript, metadata last, first failure returns) does to the files what `World.WriteEntry` says |
| LocalStorage.Storage.MoveToProcessed | internal/storage/local/local.go:123-143 | Rename, else copy and remove; always reports success; where the file goes and when it leaves are LocalCommand.MoveNamed and MoveLeavesIff |
| LocalStorage.Storage.Quarantine | internal/storage/local/local.go:146-170 | Directory, copy and record, with copy and record failures ignored |
| LocalStorage.Storage.ProcessOne | internal/document/pipeline.go:80-129 | The imperative pipeline over the mutable storage has the state and reply of the functional one, and the calls its operations logged are the script of that reply |
| LocalStorage.Storage.ProcessAll | cmd/paperclaw/main.go:142-164 | The batch loop: summary and log are those of `RunAll`, one log line per handled file in order, no summary after an abort |
| LocalStorage.Storage.RunProcess | cmd/paperclaw/main.go:109-165 | A summary is given only after the whole listing of the inbox was handled, with one log line per listed file in order, and its three counts are the numbers of lines with each status; if nothing fails, each new hash is processed once, every other file skipped, and the library ends with the hashes of the inbox added; whatever fails, the files are those of the command's state function |
| LocalStorage.RunAllStep | cmd/paperclaw/main.go:143-162 | One iteration of the loop is one step of the recursive batch, abort included |
| LocalTheorems.WriteEntryShape | internal/storage/local/local.go:88-119 | Whatever fails and wherever it is led, one write touches one directory; a directory it leaves complete is whole, with this PDF, or was complete before and carries its old metadata or the new |
| LocalTheorems.MoveKeepsBytes | internal/storage/local/local.go:123-143 | Wherever the move fails or stops, a file gone from the inbox is in the processed area byte for byte, under its own or the suffixed name, and no third file changed |
| LocalCommand.MoveNamed | internal/storage/local/local.go:128-137 | A move that meets no fault puts the file under its own name if that is unused, else under stem, hyphen, eight hash digits, extension, so that the file already there stays |
| LocalCommand.MoveLeavesIff | internal/storage/local/local.go:123-143 | Whatever fails, the file leaves the inbox if and only if the directory is there and the rename takes place, or it fails without effect and copy and removal then succeed |
| LocalTheorems.ProcessedOverwrittenIff | internal/storage/local/local.go:128-134 | A successful move overwrites an earlier processed file if and only if its destination holds other bytes |
| LocalTheorems.EntryDirFresh | internal/storage/local/local.go:95-100 | The entry directory is a new one if and only if no candidate before the first free name had a failing existence test |
| LocalCommand.EntryDirNamed | internal/storage/local/local.go:89-99 | The directory is the first candidate reported absent for the base made of date, vendor and description, or file name |
| LocalTheorems.HiddenEntryOverwritten | internal/storage/local/local.go:96-99 | A failing test for an existing complete entry lets the next write replace it, and unless another entry holds its PDF, no entry holds it afterwards |
| LocalTheorems.EntriesKeptIff | internal/storage/local/local.go:95-119 | Whatever faults it meets, a write leaves every complete entry alone if and only if it was not led to one, or no operation that took place, wholly or in part, changed one of its three files |
| LocalTheorems.ProcessShape | internal/document/pipeline.go:80-129 | One call leaves inbox, library and processed area alone, or found the hash absent, wrote one schema-valid entry, and moved the original only if that succeeded |
| LocalTheorems.ProcessEffect | internal/document/pipeline.go:120-128 | Whatever fails, one call touches at most one directory, for the listed PDF only, and only after a check that could read no entry with its hash; the inbox loses at most that file, only to a processed result whose entry name is that directory and which holds it byte for byte; the directory was no complete entry if the existence tests of the write saw the complete entries |
| LocalTheorems.QuarantinedIsRecorded | internal/storage/local/local.go:146-170 | After a quarantine without further failures the folder holds the file's bytes and the stage of the result, and inbox and library are unchanged |
| LocalCommand.QuarantineParts | internal/storage/local/local.go:146-170 | The record is written even if the copy fails, and the copy is made even if the record is not; no other quarantine folder changes |
| LocalTheorems.ScanMisses | internal/storage/local/local.go:64-85 | The check answers "absent" if and only if it ran and every complete entry with the hash was unreadable |
| LocalTheorems.ProcessKeeps | internal/document/pipeline.go:80-129 | If the existence tests of its write see the complete entries, one call loses no PDF, changes no complete entry, and keeps every complete entry whole |
| LocalTheorems.ProcessCopies | internal/document/pipeline.go:94-128 | Whatever fails, existence tests included, one call adds at most one entry for a hash, and only if none was there or the check could read none of those there |
| LocalTheorems.RunKeeps | cmd/paperclaw/main.go:142-162 | What ProcessKeeps says of a call holds of a whole batch with faults anywhere, under the same proviso for each of its writes |
| LocalTheorems.RunCopies | internal/storage/local/local.go:64-119 | After any batch, whatever fails, entries for a hash number at most one (or as many as before) plus the scans that could read none of them |
| LocalTheorems.NothingLost | internal/storage/local/local.go:88-143 | Over any history of commands that fail or stop anywhere, and of users adding and removing files, a PDF left in the inbox is at every later time there or held byte for byte by a complete entry with its hash; complete entries never change and are always whole. The one proviso: no existence test of a write misjudges an entry that is complete at the time |
| LocalTheorems.OneEntryPerHash | internal/storage/local/local.go:64-119 | Over any such history, misjudged existence tests included, with readable metadata, at most one complete entry exists per content hash |
| LocalTheorems.MetadataStaysValid | internal/document/pipeline.go:116-125 | Over any history whatsoever, every complete entry carries schema-valid metadata |
| LocalTheorems.DuplicatedIffMasked | internal/storage/local/local.go:72-84 | When nothing else fails, a filed PDF is filed once more if and only if every entry with its hash is unreadable |
| LocalTheorems.SmoothProcess | internal/document/pipeline.go:80-129 | A fault-free call skips a filed hash and changes nothing, and files any other |
| LocalCommand.CallEnds | internal/document/pipeline.go:80-168 | If no file operation fails: a missing file is quarantined at the library stage, a filed hash skipped; of the others, missing text, a failed classification and an invalid answer are quarantined under their stages, in this order, and the rest processed |
| LocalCommand.ProcessedCarries | internal/document/pipeline.go:94-128 | Whatever else fails, a processed result names the folder that holds the file's bytes, the extracted text and metadata carrying, field by field, the answer, the file's name and its hash |
| LocalCommand.AbortsIff | internal/document/pipeline.go:94-97 | A run aborts if and only if the file was read and the library could not be |
| LocalTheorems.SmoothBatch | cmd/paperclaw/main.go:142-164 | From any state, partial directories and quarantine records included, a fault-free batch ends with old hashes plus listed hashes, Processed counting the distinct new ones, Skipped the rest, Quarantined none |
| LocalTheorems.ListedBatch | cmd/paperclaw/main.go:137-164 | Over a listing of the inbox in any order, those are exactly the hashes of its PDFs |
| LocalTheorems.OrderIrrelevant | cmd/paperclaw/main.go:137-164 | Two listing orders of one inbox give the same hashes and the same summary |
| LocalCommand.RunHandlesAll | cmd/paperclaw/main.go:142-162 | Whatever fails, a batch is aborted if and only if it has fewer results than listed files, and each result is about the file at its position |
| LocalCommand.CommandHandlesAll | cmd/paperclaw/main.go:124-162 | Whatever fails, a command that is not aborted has exactly one result per listed file, in order |
| LocalCommand.OpensIff | cmd/paperclaw/main.go:124-140 | The batch starts if and only if library directory, log and listing succeed, with the four areas untouched |
| LocalCommand.SmoothCommand | cmd/paperclaw/main.go:124-164 | A command in which nothing fails, from any state, over a listing in any order, files exactly the hashes of the inbox, processes each new one once and skips the rest |
| LocalTheorems.HandledIsFiled | internal/document/pipeline.go:94-128 | Whatever fails, a file reported processed or skipped has its hash in the library |
| LocalTheorems.RemainderIsFiled | cmd/paperclaw/main.go:142-164 | After a batch with no quarantine and no abort whose writes saw the complete entries, every listed file still in the inbox has its hash in the library |
| LocalTheorems.SecondRunSkips | cmd/paperclaw/main.go:137-164 | After a batch with no quarantine and no abort whose writes saw the complete entries, even if moves failed or misjudged their destination, a second one over what is left, with readable metadata, processes nothing and changes inbox, library and processed area not at all, whatever fails in it and wherever it stops; if nothing fails in it, it skips every file |
| Store.WholeSecond | internal/store/store.go:129 | A stored expiry is the given instant rounded down to a second (section 5.6 of RFC 3339) |
| Store.DB.PutDocument | internal/store/store.go:68-77 | Inserts the row unless the hash has one, and touches no other; a failed statement may have been committed |
| Store.FirstRowStays | internal/store/store.go:68-77 | The first row for a hash stays, whatever is inserted for it later, and rows of other hashes are left alone |
| Store.DB.PutChannel | internal/store/store.go:146-158 | Replaces the channel fields, keeps the page token, stores the expiry in whole seconds |
| Store.SyncRoundTrip | internal/store/store.go:115-158 | What is stored of a page token and a channel is read back, in whichever order they were stored, with less than a second lost of the expiry |
| Store.DB.BumpCounter | internal/store/store.go:217-229 | Increments the named counter only; an unknown name is an error and changes nothing |
| DriveStorage.Storage.ListInbox | internal/storage/drive/drive.go:102-131 | The loop that resets and fills the cache computes names and cache of the stable files; a failed request leaves the old cache |
| DriveStorage.Storage.ReadPDF | internal/storage/drive/drive.go:137-168 | Cache lookup, re-verification of size, time and checksum, download |
| DriveStorage.Storage.WriteEntry | internal/storage/drive/drive.go:177-235 | Children, folder, three uploads, index row, in that order, the first failure returning; what the folder is called is DriveEntries.WriteNames |
| DriveStorage.Storage.MoveToProcessed | internal/storage/drive/drive.go:238-252 | Moves the cached file id, and reports a failure |
| DriveStorage.Storage.ProcessOne | internal/document/pipeline.go:80-129 | The imperative pipeline over Drive has the state and reply of the functional one, and the calls its operations logged are the script of that reply |
| DriveStorage.Worker.Enqueue | internal/serve/worker.go:50-55 | A request finds or leaves exactly one queued |
| DriveStorage.Worker.ProcessFile | internal/serve/worker.go:99-151 | The pipeline, then one counter by status, or the error text |
| DriveStorage.Worker.RunScan | internal/serve/worker.go:71-97 | Listing, files in order until a shutdown is seen, then the poll record; a failed listing records its error |
| DriveTheorems.ListingCaches | internal/storage/drive/drive.go:112-130 | Returned names and cache keys are the same set although names may repeat; every cached file is listed, checksummed, older than the threshold, under its own name |
| DriveEntries.ListingSays | internal/storage/drive/drive.go:102-131 | A listing reports, in its order and with repetitions, exactly the names of the files that have a checksum and were not modified within the threshold, and caches each of these names with such a file; a failed one leaves the cache |
| DriveEntries.ReadSays | internal/storage/drive/drive.go:137-168 | A read succeeds if and only if the name is cached, both requests succeed, and the file still has the cached size and modification time and a checksum; it gives what the download serves, with its hash |
| DriveRuns.CachedIffLast | internal/storage/drive/drive.go:117-129 | With distinct file ids, a fully uploaded file is the one cached under its name if and only if no later fully uploaded file of the listing has that name |
| DriveRuns.ShadowedWaits | internal/storage/drive/drive.go:117-147 | A fully uploaded file with a later namesake is neither moved nor indexed in that scan, whatever fails |
| DriveTheorems.Writes | internal/document/pipeline.go:94-128 | A call that reaches the write does so from an unchanged library and index, for a hash that has no row, and moves the original if and only if the write succeeds |
| DriveTheorems.TempRemoved | internal/storage/drive/client.go:97-123 | A read that succeeds leaves a temporary file that is there until the end of the run and gone afterwards, on every exit, unless the process died or the removal did not take place; a read that fails leaves none |
| DriveTheorems.WriteEffect | internal/storage/drive/drive.go:177-235 | A write adds at most one folder, which shows its metadata if and only if the uploads got that far, and a row if and only if the insert did too; success implies the row |
| DriveEntries.WriteNames | internal/storage/drive/drive.go:183-230 | Whatever fails, a folder that a write adds, the name it reports and the name in the row it inserts are the first free candidate of the base made of date, vendor and description, among the folder names and the other children |
| DriveEntries.FreeNameFields | internal/storage/drive/drive.go:184 | When the base is free, the name splits at underscores into date, vendor slug cut at 30 and description slug cut at 40 |
| DriveEntries.ProcessedCarries | internal/document/pipeline.go:120-128 | Whatever else fails, a processed result names the new folder, which holds the bytes read, the text, and metadata carrying, field by field, the answer, the file's name and its hash; it reports a move exactly if that request succeeded, and the file is moved exactly if it took effect |
| DriveEntries.QuarantineNoted | internal/document/pipeline.go:80-168 | If Drive requests succeed, a call leaves one quarantine note, under the stage of its result, if it is quarantined, and none otherwise |
| DriveTheorems.ProcessBalance | internal/storage/drive/drive.go:171-235 | One call changes library copies and index rows of a hash in step, but for the orphan it may leave |
| DriveTheorems.IndexConservation | internal/storage/drive/drive.go:171-235 | Over any history of scans, faults and stops, complete entries for a hash change by exactly its index row plus its orphans |
| DriveTheorems.IndexAgrees | internal/storage/drive/drive.go:171-235 | From an empty start, at most one entry plus orphans per hash, and index lookup and full scan agree if and only if the hash is indexed or was never orphaned |
| DriveTheorems.IndexRefinesScan | internal/storage/drive/drive.go:171-235 | From an empty start, if each metadata upload that takes place is reported and the insert after it takes place, whatever other request or statement fails and wherever the daemon stops, the index answers as a library scan would, and there is at most one entry per hash |
| DriveTheorems.RowsNameEntries | internal/storage/drive/drive.go:220-234 | In every reachable state each row names a complete entry with that hash, its PDF and a transcript |
| DriveTheorems.EntryNamesDistinct | internal/storage/drive/drive.go:186-196 | No two entry folders ever share a name, partial ones included |
| DriveRuns.MovedAreFiled | internal/storage/drive/drive.go:177-252 | No file is lost: from a state in which moved files have rows and rows entries, an empty one for instance, over any history of scans, whatever request or statement fails and wherever the daemon stops, a file whose move out of the inbox took effect has a row, and that row a complete entry with a PDF of that hash |
| DriveTheorems.FileCounted | internal/serve/worker.go:117-147 | If no statement fails and the process is not killed, each file bumps one counter, and the processed counter exactly when a row is added, so INSERT OR IGNORE never ignores |
| DriveEntries.CounterByStatus | internal/serve/worker.go:127-147 | If no statement fails and the process is not killed, a file bumps exactly the counter of its status |
| DriveTheorems.ScanCounted | internal/serve/worker.go:79-97 | If no statement fails and the process is not killed, over a scan the processed counter grows by the rows added, and the three counters by the files handled |
| DriveTheorems.HistoryCounted | internal/serve/worker.go:71-97 | If no statement fails and the process is not killed, over any history of scans the processed counter grows by the rows added, and the three counters by the files handled |
| DriveRuns.RowsConserved | internal/serve/worker.go:117-147 | Whatever fails, over any history of scans the rows added are the growth of the processed counter plus exactly the rows whose insert was not reported or whose counter statement was lost |
| DriveTheorems.FinishedScanClearsError | internal/serve/worker.go:91-93 | A scan that handles its whole listing and whose poll record takes place leaves no error text, whatever its files recorded and whatever else failed |
| DriveTheorems.ErrorSurvivesIff | internal/serve/worker.go:71-93 | An error text is left after a scan if and only if its failed listing was recorded, or a text that was there or that a file recorded was not cleared because the scan stopped short or its poll record did not take place |
| DriveTheorems.FileErrorText | internal/serve/worker.go:117-123 | A file leaves an error text exactly if it was read, the statement of its duplicate check failed, and the statement that records this took place |
| DriveTheorems.FiledAsListed | internal/storage/drive/drive.go:150-161 | If the download serves the revision that was verified, what is filed is the revision that was listed |
| DriveTheorems.OncePerScan | internal/storage/drive/drive.go:112-168 | If every download serves the revision that was verified and the listing's file ids are distinct, within one scan each Drive file is indexed at most once and moved at most once, even if names repeat and any request or statement fails |
| DriveTheorems.MovesCounted | internal/storage/drive/drive.go:112-252 | When nothing fails and answers satisfy the schema, any scan moves a Drive file exactly as often as a verified download of it serves content that is new to the index at that moment |
| DriveTheorems.MovedTwiceIffRevised | internal/storage/drive/drive.go:150-163 | If a name repeats and nothing fails, the same file is moved twice if and only if its two downloads serve different contents, both new to the index |
| DriveTheorems.EditInTheGap | internal/storage/drive/drive.go:150-163 | A concrete scan in which nothing fails, file ids are distinct and every verification sees the listed revision moves one file twice |
| DriveRuns.SmoothScan | internal/serve/worker.go:71-97 | A scan in which nothing fails and answers satisfy the schema, from any state: the index ends with its old hashes and those the usable files serve, Processed counts the distinct new ones, the counters together the files handled, and, if all files have names, Skipped the other usable ones |
| DriveRuns.SecondScanFilesNothing | internal/serve/worker.go:71-97 | After such a scan, one that meets only content the first served leaves library, index and processed folder as they are, whatever fails in it |
| Channel.ChannelManager.EnsureStartPageToken | internal/serve/channelmgr.go:111-128 | Does to the stored state what the start-up function says, which StartStoresToken spells out |
| Channel.StartStoresToken | internal/serve/channelmgr.go:111-128 | After start-up a stored page token is unchanged; an empty one is the fetched one if the state could be read, one was fetched and the statement took place |
| Channel.ChannelManager.EnsureChannel | internal/serve/channelmgr.go:132-164 | Registers and stores a channel unless a fresh one is stored, there is no token, or Drive refuses |
| Channel.AttemptRegistersIff | internal/serve/channelmgr.go:132-164 | An attempt registers if and only if the state is read, a page token is stored, no channel is stored or its expiry is within the lead time, and Drive grants; with which credentials, and what is stored of it, are spelled out |
| Channel.ChannelManager.Run | internal/serve/channelmgr.go:61-106 | Start-up, then stop and renew per timer, then the final stop; nothing at all without a webhook URL |
| Channel.RegistrationsSpaced | internal/serve/channelmgr.go:71-164 | In any sequence of runs that store their channels, however often Drive refuses, a replaced channel, inherited or not, has less than lead time plus one second left at the check that replaces it, and the stored channel is the last registered |
| Channel.ReplacedWereStopped | internal/serve/channelmgr.go:98-103 | If the loop can read the state, every channel it replaced was asked to stop |
| Channel.RegistrationsBounded | internal/serve/channelmgr.go:71-164 | In any sequence of runs that store their channels, registrations are linearly bounded, however often Drive refuses and the daemon restarts: n + 1 of them take more than n times (granted life - lead time - 1s) |
| Channel.RegistersAgainIff | internal/serve/channelmgr.go:140-162 | The next granted attempt registers again if and only if the last channel was not stored or its stored expiry is within the lead time |
| Channel.TurnCovers | internal/serve/channelmgr.go:77-103 | One prompt turn that finds a live channel, whoever registered it, registers the next before its stored expiry |
| Channel.NeverExpires | internal/serve/channelmgr.go:71-106 | If start-up has a page token, statements and registrations succeed and the loop's own delays stay within the lead time, the stored channel never expires before it is replaced, the one an earlier run left and that is still fresh included; every turn registers exactly once |
| Channel.RestartDeafIff | internal/serve/channelmgr.go:89-97 | After any sequence of runs the last of which stopped gracefully, the next run registers a channel if and only if an attempt comes no earlier than the lead time before the stored expiry; until then it relies on a channel that Drive was asked to stop |
| Channel.NoTokenNoChannel | internal/serve/channelmgr.go:68-105 | If no page token is stored and none is fetched and stored at start-up, no run ever registers a channel or changes the stored state |
| Channel.RegistersIffToken | internal/serve/channelmgr.go:68-105 | A prompt run whose timer has fired registers a channel if and only if a page token was stored, or could be fetched and stored at start-up |
| Channel.FirstRunRegisters | internal/serve/channelmgr.go:68-69 | A first run with nothing stored, that can fetch and store a page token and is granted a channel, registers and stores it at start-up |
| Channel.RefusalsDoNotBackOff | internal/serve/channelmgr.go:77-103 | Refused renewals, however many, leave the stored row and the log alone, so the loop sleeps zero next if and only if the stored channel is due, and a minute if no expiry is stored; if it can read the row, it stops the same channel every time |
| Channel.WaitExact | internal/serve/channelmgr.go:77-86 | The loop sleeps until the lead time before the stored expiry, if that is still to come, and a minute if none is stored |
| Webhook.Handler.ServeHTTP | internal/serverhttp/webhook.go:31-66 | A scan is requested if and only if the state can be read, a channel is stored, both credentials are its own, and the notification is not the handshake; each of the four answers is given under exactly its condition |
| Wakeup.NoLostWakeup | internal/serve/worker.go:50-77 | In every interleaving, after an enqueue a token is pending, or the worker is about to list, or a listing began later, or the worker returned |
| Wakeup.TokensConserved | internal/serve/worker.go:50-69 | Tokens taken plus the pending one are the enqueues that found the channel empty |
| Wakeup.AtMostOneTakeAfter | internal/serve/worker.go:50-69 | After the last enqueue at most one token is received |
| Wakeup.ScansDisjoint | internal/serve/worker.go:60-97 | Before the next listing, the scan an earlier listing opened has ended and a further token was taken |
| Wakeup.WakeupServedSoon | internal/serve/worker.go:60-97 | Until the listing that serves an enqueue, the worker makes at most as many steps as it has files left, plus two |
| Wakeup.WorkerNotStuck | internal/serve/worker.go:60-97 | Until then the worker always has a step other than stopping |
| Wakeup.StoredIsLastRegistered | internal/serve/channelmgr.go:149-160 | The accepted credentials are always those of the last registration |
| Wakeup.StaleNeverEnqueues | internal/serverhttp/webhook.go:43-60 | With fresh credentials, a notification checked after its channel was superseded never enqueues |
| Wakeup.AcceptedIsServed | internal/serverhttp/webhook.go:58-65 | An accepted notification is about to enqueue, or its enqueue is pending, about to be listed, followed by a listing, or met a worker that has returned |
| Wakeup.CurrentIsServed | internal/serverhttp/webhook.go:43-65 | A change notification with the credentials of the last registered channel is accepted, and so about to enqueue, pending, about to be listed, followed by a listing, or lost only to a worker that has returned |
| Wakeup.OthersNeverEnqueue | internal/serverhttp/webhook.go:43-56 | A handshake, and a notification without the stored credentials, never enqueue |
| Listing.LessIsSmaller | cmd/paperclaw/main.go:191 | For strings with digits in the same places, string order is the order of the numbers they spell |
| Listing.LessIff | cmd/paperclaw/main.go:191 | For all strings, one is less if and only if, after a common prefix, it ends first or has the smaller character |
| Listing.LessPrefix | cmd/paperclaw/main.go:191 | Against a shorter string only as many characters count, so `--since 2026-03` compares year and month |
| Listing.DateOrder | cmd/paperclaw/main.go:191 | String comparison of schema-shaped dates is comparison of year, then month, then day |
| Listing.WalkLibrary | cmd/paperclaw/main.go:315-332 | Returns, in listing order, exactly the metadata that can be read and parsed |
| Listing.RunList | cmd/paperclaw/main.go:186-201 | Returns, in library order, exactly the documents the string filters keep |
| Listing.ContainsIff | cmd/paperclaw/main.go:194 | The vendor filter keeps a name if and only if it is something, the text, and something |
| Listing.ListCommand | cmd/paperclaw/main.go:180-201 | Reading and filtering composed: exactly the directories that can be read and that the string filters keep, in listing order |
| Listing.KeptIsWanted | cmd/paperclaw/main.go:187-198 | For schema-valid metadata and a well-formed `--since`, the string filters keep exactly what the calendar dates ask for |
| Listing.PipelineListing | cmd/paperclaw/main.go:180-201 | After any history of commands, faults and stops on a pipeline-written library, an answer of the command is exactly the subsequence of readable complete entries that the calendar dates in the flags ask for, in listing order |

## Left out

- Drive HTTP, pagination and `changes.go`: a request succeeds, fails, or fails after taking effect.
- `pdftotext`, the Anthropic call and the JSON Schema engine: oracles, one answer per moment; of the schema, the parts that constrain the modelled fields.
- SHA-256, hex, JSON and SQL text: an uninterpreted hash, records and maps. Time stamps of rows and log lines, tags and language of a document, and the last poll time are not modelled.
- OAuth flow, token refresh, readiness prober, configuration, telemetry, logging text and terminal output.
- `show` and `search`: they read the same metadata as `list` and change nothing.
- `internal/storage/fake`: a test double that overwrites by date and vendor.
- The content of a Drive quarantine folder: a quarantine is a note of name and stage, and no theorem depends on it.
- Write failures of `process.log`, and configurations in which two of the three directories coincide.
- Inbox and processed directories that do not exist, and sub-directories inside the inbox, beyond the failing operation they cause.
- Unicode lower-casing beyond ASCII: see above.
- DriveStorage.Worker.RunScan: one scan in one goroutine; the interleaving of worker, producers, handlers and shutdown is the separate state machine of `Wakeup.dfy`, in which a scan is a listing and a number of files.
- Channel.ChannelManager.Run: takes a finite list of loop turns, as does every history in this project; properties hold for each such prefix of an endless run.
- LocalTheorems.NothingLost: assumes that the existence tests of a write see each entry that is complete at the time; `EntryDirFresh` and `EntriesKeptIff` say, write by write, exactly what happens otherwise. Tests of partial directories and of the processed area may be misjudged.
- Listing.KeptIsWanted: a `--since` that is not a date of the form YYYY-MM-DD is compared as a string by the code; `RunList`, `LessIff` and `LessPrefix` say what that means, without a calendar meaning to compare with.
