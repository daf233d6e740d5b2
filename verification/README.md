# Knovas Connector, modelled and verified in Dafny

The Knovas Connector is an incremental synchroniser: it scans a file share or a
Microsoft 365 drive, cuts each document into bounded parts, uploads them, records what the
server holds, removes what is gone, and runs all of this from a scheduler. This project
models the parts of it whose correctness is not visible from any single function and proves
what they promise, for all inputs and over whole runs. `dafny verify dfyconfig.toml` checks
everything.

| files | what they are about |
|---|---|
| `Lines`, `PageMarkers`, `PageTelescope`, `MarkerLoss`, `SectionPages`, `Chunking`, `Provenance`, `Streaming` | cutting text into parts; form feeds from which the server rebuilds every character's page |
| `Share`, `Sight`, `Apart`, `Walk`, `Prune`, `Resume`, `Subfolders` | the resumable walk of a share, what may be deleted after it, and the cursor over subfolders |
| `SyncState`, `Recording`, `Wordings`, `Outcomes`, `BoundedAttempts`, `Uploader`, `Reextract`, `Backfill` | one document's record, one upload, and what repeated cycles and nightly runs do to both |
| `Inventory`, `Paths`, `Spoiling`, `DriveScan` | the replica of a Microsoft 365 drive, the paths derived from it, and what may be deleted after listing them |
| `Scheduler` | start, stop, one-time run and worker as interleaved atomic steps |
| `KeysetPaging`, `Calendar` | cursor paging and period labels of the mock Knovas API |
| `TokenBucket`, `OcrCache`, `OcrRuns`, `OcrUses`, `Payload`, `PayloadOnce`, `FieldKeys`, `Encoding` | the ingest limiter, the OCR cache, the field payload, and the bytes their sizes count |
| `Prelude`, `Sorting`, `Strings` | shared vocabulary |

Code that changes state is a class or a method with loops, proved against functions on
values; the lemmas are about those functions. Text is `string`; paths on a share are
sequences of names; SQLite tables are maps or sequences; time, the network, extraction and
the server's answers are parameters; Knovas and Microsoft Graph are ghosts.

Results that are not what one might expect of the code:

- Page starts at one offset lose form feeds. A part carries all of its form feeds exactly when
  no two of its markers stand at one offset (`Provenance.NoMarkerLostExactly`); a document with two
  pages on one line is read on different pages depending on where its parts begin
  (`Provenance.TwoOnOneLineDisagree`).
- A part can exceed the part size when its heading is as long as that; `Chunking.PartFitsExactly`
  says exactly when.
- A walk stopped among the entries of a folder has already taken that folder off its stack. What
  is then saved loses folders and files under two different conditions, both exact:
  `Resume.CutKeepsFolders` and `Resume.CutKeepsFiles`.
- A stop whose deadline passed answers `not_running` while a run goes on
  (`Scheduler.TimedOutStop`). It gives up exactly when a session is active at that moment
  (`Scheduler.StopGetsLockExactly`).
- The hash of an upload covers its fields even where the server refused or ignored them. A later
  re-extraction of the same document is then found unchanged although Knovas does not hold those
  fields (`Reextract.RefusedThenUnchanged`). They are there exactly when the last upload that arrived
  had them taken or Knovas had them before (`Reextract.UnchangedFieldsExactly`).
- The token bucket's bound between two stamps fails whenever a bucket that was emptied is asked
  at an earlier time (`TokenBucket.LateRefusalExceeds`). A window that ends in a granted reading
  always meets it; one that ends in a refused reading does exactly when the refilled bucket, with what
  ran over and what was missing at the start, was not below zero (`TokenBucket.LastReadingDecides`);
  measured to the latest reading it always holds.
- A text too large for the OCR cache leaves the older text of its key in place; a hit is the text
  put last exactly under the condition in `OcrRuns.HitIsLastOfferedExactly`.
- A re-extraction makes the text at Knovas worse exactly when page counts are missing
  (`Reextract.WorseExactly`); a backfill whose uploads carry no counts is billed every night
  (`Backfill.UncountedIsBilledEveryNight`).
- A folder's clean cycle may have continued a cut scan and seen the rest of it only.
  `Subfolders.AllSeenWholeExactly` says when all folders were seen whole.
- The path resolver also remembers where it gave up: an item beyond the depth bound takes the
  paths of its ancestors with it (`Paths.DeepItemSpoilsAncestors`). No file path is missing, in any
  order of the dictionary, exactly when no file's chain is longer than 256
  (`Paths.EveryOrderIsComplete`). A single document can be taken for gone and deleted exactly when
  a file beyond the bound lies at most 256 steps below an item of its chain
  (`DriveScan.KeptInEveryOrderExactly`).
- Period labels of years before 1000, other than single days, and ranges do not read back;
  `Calendar.RoundTrip` is the exact condition.

## Model

| member | source | states |
|---|---|---|
| `Lines.LineStartsExact` | KnovasConnector/src/sync/page_markers.py:49-56 | the listed offsets are exactly the line starts, each once, ascending |
| `Lines.LineStartOffsets` | KnovasConnector/src/sync/page_markers.py:49-56 | the scan from newline to newline finds every line start |
| `Lines.OffsetForLine` | KnovasConnector/src/sync/section_pages.py:21-32 | counting newlines one by one gives the start of the line, the text's end past the last line |
| `Lines.LineNumberExactly` | KnovasConnector/src/sync/section_pages.py:13-18 | the line of an offset is the last one that starts at or before it |
| `PageMarkers.PageNumberStarts` | KnovasConnector/src/sync/chunking.py:85-112 | the loop returns the sorted starts and numbers of exactly the pages with text |
| `PageMarkers.PageForOffsetIsOnPage` | KnovasConnector/src/sync/chunking.py:115-122 | for any pages in any order the bisected page is the page whose start governs the offset; none exactly without text pages |
| `PageMarkers.TextPageStarts` | KnovasConnector/src/sync/page_markers.py:59-86 | the loop over pages by index yields one counted marker per text page after the first |
| `PageMarkers.MarkerStartsPositive` | KnovasConnector/src/sync/page_markers.py:59-86 | markers stand at ascending line starts with positive counts, whatever the pages |
| `PageMarkers.MarkerCountMonotone` | KnovasConnector/src/sync/page_markers.py:89-107 | shortening a part never adds markers |
| `PageMarkers.ApplyPageMarkers` | KnovasConnector/src/sync/page_markers.py:110-130 | the cursor loop writes the same text as the recursive definition of marking |
| `PageMarkers.MarkedText` | KnovasConnector/src/sync/page_markers.py:110-130 | dropping the form feeds of a marked text gives the text back |
| `PageMarkers.MarkedPages` | KnovasConnector/src/sync/page_markers.py:110-130 | the server's page at a position is the declared one plus the counts of the markers passed |
| `MarkerLoss.MarkersWrittenExactly` | KnovasConnector/src/sync/page_markers.py:118-128 | all form feeds of ascending markers are written if and only if no two stand at one position and none at the cursor |
| `PageTelescope.CountsTelescope` | KnovasConnector/src/sync/page_markers.py:59-86 | counts over a stretch of pages add up to the difference of their numbers |
| `PageTelescope.PageOfCharacter` | KnovasConnector/src/sync/chunking.py:158-195 | a part's declared page plus the markers inside it up to a character is that character's page |
| `SectionPages.PrefixExactly` | KnovasConnector/src/sync/section_pages.py:35-71 | a part's prefix is the heading of the first section on the line where the part starts, with one to four marks by its level; none without such a section or when it is blank |
| `SectionPages.RepeatsExactly` | KnovasConnector/src/sync/section_pages.py:74-98 | a part's first line counts as the heading's own exactly when it is the heading, bare or with any number of marks, blanks aside |
| `SectionPages.HeadingMovesText` | KnovasConnector/src/sync/section_pages.py:74-98 | text behind the first line keeps its order and moves by exactly the shift, prefixed or replaced |
| `SectionPages.AdjustChunkEnd` | KnovasConnector/src/sync/section_pages.py:101-134 | the last page or section boundary far enough into the part, else the end unchanged |
| `Chunking.FitMarkersInBudget` | KnovasConnector/src/sync/chunking.py:25-37 | the loop ends by strict decrease; text plus markers fit the budget; the end is lowered only when they did not, and by no more than the markers counted |
| `Chunking.TextChunksWithLocation` | KnovasConnector/src/sync/chunking.py:125-195 | contiguous parts from first to last character, each within budget, ending at the last preferred boundary, each with the page and the sentence of its first character; refused exactly below size 1 |
| `Chunking.LocationIsAtSentence` | KnovasConnector/src/sync/chunking.py:60-82 | for sentences in the order of the text the answer is page and number of the last sentence that starts at or before the offset, of the first before all of them, and nothing without sentences or behind the last one |
| `Chunking.GoodPartIsLocated` | KnovasConnector/src/sync/chunking.py:184-189 | a part declares the page of its first character where there are text pages, else that of the sentence there, and that sentence's number |
| `Chunking.ReachExactly` | KnovasConnector/src/sync/chunking.py:162-176 | how far a part may reach: text and markers fit the budget, and it falls short of budget and text by no more than the markers |
| `Chunking.PartsConcatenate` | KnovasConnector/src/sync/chunking.py:162-195 | raw parts concatenate to the text and their starts strictly increase |
| `Chunking.SnippetSize` | KnovasConnector/src/sync/chunking.py:178-195 | a snippet is text plus heading shift plus at most the counted markers |
| `Chunking.PartFitsExactly` | KnovasConnector/src/sync/chunking.py:162-195 | a snippet is within the part size if and only if the prefix is shorter than it, or the one character left is the heading and its marked-up line fits |
| `Provenance.PartReadBack` | KnovasConnector/src/sync/chunking.py:178-195 | every character of a raw part is found at its shifted place with the page of the markers before it |
| `Provenance.NoMarkerLostExactly` | KnovasConnector/src/sync/chunking.py:186-195 | for a document with pages in any order, a part is its text, the heading's shift and every form feed counted for it if and only if no two of its markers stand at one offset |
| `Provenance.TwoOnOneLineDisagree` | KnovasConnector/src/sync/page_markers.py:59-86 | two pages on one line: read on page 2 in one part, declared as page 3 by a part that starts there |
| `Provenance.PageProvenance` | KnovasConnector/src/sync/chunking.py:125-195 | for every part and offset the server's page is the one page of that character in the document, and the text under the markers is the part |
| `Provenance.EveryCharacterReadsBack` | KnovasConnector/src/sync/chunking.py:125-195 | every character of a document lies in a part from which the server reads it back, on its own page |
| `Streaming.ChunksExact` | KnovasConnector/src/sync/chunking.py:229-246 | chunks concatenate to the text and all but the last are full |
| `Streaming.ChunkText` | KnovasConnector/src/sync/chunking.py:229-246 | the loop cuts exactly these chunks |
| `Streaming.FileTextChunks` | KnovasConnector/src/sync/chunking.py:249-285 | reading in any blocks gives the chunks of the whole text |
| `Share.PushedByName` | KnovasConnector/src/sync/sync_executor.py:465-466 | the sub-folders of a folder are pushed, each once, in the order of their names |
| `Share.CouldNotSeeExact` | KnovasConnector/src/sync/sync_executor.py:996-1006 | true exactly when the path or a folder above it was unreadable |
| `Sight.ScopeSeen` | KnovasConnector/src/sync/sync_executor.py:405-457 | whatever a source means to hold is visible to the walk or lies below something it cannot read |
| `Walk.WalkBudget.ConsumeDir` | KnovasConnector/src/sync/sync_executor.py:357-363 | counts every visit and refuses exactly beyond the limit |
| `Walk.ScanEntries` | KnovasConnector/src/sync/sync_executor.py:413-457 | every file of the folder's scope is found, noted unreadable, in a sub-folder to push or behind the entry a stop was seen at; only what can be seen is found and only what cannot is noted |
| `Walk.WalkFiles` | KnovasConnector/src/sync/sync_executor.py:378-468 | visits, saved stack and what a stop cut off make up the starting folders and their files; only what can be seen is found, only what cannot is noted; it stops only where a stop may come and is truncated only when a cap was reached |
| `Prune.CandidateFiles` | KnovasConnector/src/sync/sync_executor.py:471-516 | after a pass neither truncated nor stopped every file in scope was yielded or lies where the walk could not see; nothing is yielded that cannot be seen or noted that can |
| `Prune.PruneRemoved` | KnovasConnector/src/sync/sync_executor.py:1009-1043 | exactly the tracked paths that are gone are asked for, those Knovas deleted leave it and the state together, and the others and the hidden ones are counted |
| `Prune.SyncCycle` | KnovasConnector/src/sync/sync_executor.py:1747-1775 | a document still in a source's scope is never deleted; nothing is deleted unless the scan was complete and no guard holds, and then, but for Knovas's errors, exactly what is gone is |
| `Resume.ScanSubfolder` | KnovasConnector/src/sync/sync_executor.py:1338-1350 | one cycle: folders visited, stacked and cut off, files found and unreadable, and the stack it saves for each way of ending; no visit leaves the stack as it was |
| `Resume.CutKeepsFolders` | KnovasConnector/src/sync/sync_executor.py:421-426 | after a stop inside a folder no folder is lost from visits and saved stack if and only if the whole subfolder was saved or the folder has no sub-folders |
| `Resume.CutKeepsFiles` | KnovasConnector/src/sync/sync_executor.py:421-426 | and no file if and only if the whole subfolder was saved or nothing in scope lies behind the stop or in a sub-folder |
| `Resume.CycleOfChain` | KnovasConnector/src/sync/sync_executor.py:1338-1350 | one more cycle of any chain: carried on, begun anew at the root, or, stopped inside a folder, folders and files kept under the two exact conditions |
| `Resume.ScanCycles` | KnovasConnector/src/sync/sync_executor.py:1198-1212 | cycles fed from one another's saved stacks: while none is cut, no folder is visited twice or left out, and the scan ends within as many cycles as folders plus stopped ones, every folder visited once and every file found or out of sight |
| `Subfolders.SubfolderQueue.GetProgress` | KnovasConnector/src/sync/subfolder_queue.py:179-190 | the current folder, or completion, of the stored row; a new source gets its listing |
| `Subfolders.SubfolderQueue.MaybeAdvance` | KnovasConnector/src/sync/subfolder_queue.py:198-244 | moves on by one exactly when nothing is truncated, paused or pending |
| `Subfolders.SubfolderQueue.EndCycle` | KnovasConnector/src/sync/sync_executor.py:1777-1805 | what a whole cycle does to the row: stack kept, cleared or cursor moved |
| `Subfolders.PassedFoldersWereClean` | KnovasConnector/src/sync/subfolder_queue.py:198-244 | every folder the cursor has passed had a clean cycle of its own |
| `Subfolders.CursorNeverGoesBack` | KnovasConnector/src/sync/subfolder_queue.py:198-244 | over every run the cursor is monotone and moves by at most one per cycle |
| `Subfolders.CompletionMeansAllClean` | KnovasConnector/src/sync/subfolder_queue.py:179-244 | completion is reported if and only if every listed folder had its own clean cycle |
| `Subfolders.StackIsLastCut` | KnovasConnector/src/sync/subfolder_queue.py:158-177 | at every moment the saved stack is what the last scan left when it was cut, and nothing otherwise |
| `Subfolders.SeenWholeExactly` | KnovasConnector/src/sync/sync_executor.py:1338-1350 | a folder's clean cycle began at its root if and only if the scan before was not cut or left nothing or the root |
| `Subfolders.AllSeenWholeExactly` | KnovasConnector/src/sync/sync_executor.py:1338-1350 | every listed folder was seen whole by its clean cycle if and only if the run completed and no clean cycle continued a cut scan |
| `Subfolders.ResumedCycleSeesTheRest` | KnovasConnector/src/sync/sync_executor.py:1338-1350 | a completed run in which the folder was not seen whole, whatever the cut cycle found pending |
| `SyncState.SyncStateStore.LookupStored` | KnovasConnector/src/sync/sync_state_db.py:244-258 | the cached lookup answers with the stored row's fingerprint |
| `SyncState.SyncStateStore.RecordUpload` | KnovasConnector/src/sync/sync_state.py:122-144 | fingerprint and fields written, note and retries cleared, every other column and path kept |
| `SyncState.SyncStateStore.RecordPartial` | KnovasConnector/src/sync/sync_state.py:160-187 | as an upload, with the note in place of none |
| `SyncState.SyncStateStore.RecordReextractUnchanged` | KnovasConnector/src/sync/sync_state.py:262-281 | stamp moves on, the note follows the new extraction but keeps the backfill's mark |
| `SyncState.SyncStateStore.RecordReextractKept` | KnovasConnector/src/sync/sync_state.py:283-290 | stamp moves on, marked kept, hash and note stay |
| `SyncState.SyncStateStore.CountReextractFailure` | KnovasConnector/src/sync/sync_state_db.py:566-588 | counts a queued row's failure and releases it at the maximum |
| `Recording.RecordUploadOutcome` | KnovasConnector/src/sync/sync_executor.py:773-944 | every branch leaves in the store what the function on one document says, and touches no other path |
| `Recording.SentMarkIsLastAnswer` | KnovasConnector/src/sync/doc_fields_payload.py:582-596 | over every run of outcomes the sent mark is the server's last staged or cleared answer |
| `Wordings.KindExactly` | KnovasConnector/src/sync/document_text.py:315-343 | every error text is judged by its words in any letter case: a verdict on the file, not the file's fault, or an extraction to try again |
| `Wordings.ConfigurationIsNotTheFile` | KnovasConnector/src/sync/sync_executor.py:642-647 | a refused setting is never the file's fault, whatever else the text says |
| `Wordings.EncryptedIsJudged` | KnovasConnector/src/sync/document_text.py:330-343 | an encrypted file is judged, whatever else the text says |
| `Wordings.TimeoutCounts` | KnovasConnector/src/sync/document_text.py:216-222 | a timeout counts against the file unless it speaks of a rate limit |
| `Outcomes.SentExactly` | KnovasConnector/src/sync/sync_executor.py:852-889 | every column after an upload that was sent: row, note, counters, and the fields settled, queued again or given up |
| `Outcomes.FailedReextraction` | KnovasConnector/src/sync/sync_executor.py:893-903 | a verdict moves the stamp on; anything else counts, the third time releases the document, and nothing else changes |
| `Outcomes.Unconvertibles` | KnovasConnector/src/sync/sync_executor.py:904-914 | a file that cannot be converted is recorded as a skip with the current stamp and the fields settled |
| `Outcomes.FailedReupload` | KnovasConnector/src/sync/sync_executor.py:915-928 | only the attempts change, and the last one settles the digest under the failure's class |
| `Outcomes.FailedContent` | KnovasConnector/src/sync/sync_executor.py:929-944 | nothing where nobody is at fault, one more retry, or the partial record |
| `Outcomes.StatusExactly` | KnovasConnector/src/sync/sync_executor.py:307-328 | what the next scan makes of a record: known content is synced or has changed fields, the age limit counts for the rest only |
| `Outcomes.FailureClassExactly` | KnovasConnector/src/sync/sync_executor.py:702-719 | the class of a failed re-upload: the status of an init, the server, or the extraction |
| `BoundedAttempts.OneAttempt` | KnovasConnector/src/sync/sync_executor.py:731-770 | a recorded fields re-upload ends synced or counts one attempt below the maximum |
| `BoundedAttempts.AttemptsAreBounded` | KnovasConnector/src/sync/sync_executor.py:834-944 | any mix of refusals and errors leaves the document synced after the attempts left, at least one |
| `BoundedAttempts.FailuresUseAllAttempts` | KnovasConnector/src/sync/sync_executor.py:749-770 | failures alone keep it queued until the last attempt: the bound is exact |
| `BoundedAttempts.RetriesEndPartial` | KnovasConnector/src/sync/sync_executor.py:929-944 | errors worded as the server's, a rate limit's or the configuration's change nothing; the others count, and exactly the one after the last retry ends the run with a partial record |
| `BoundedAttempts.ConfigurationNeverCounts` | KnovasConnector/src/sync/sync_executor.py:642-647 | errors of the connector's own settings, in any letter case and number, leave a document as it is |
| `BoundedAttempts.ReextractionsAreBounded` | KnovasConnector/src/sync/sync_executor.py:893-903 | at most three failed re-extractions, which change neither fingerprint, fields, note, retries nor hash |
| `Uploader.PartialNoteFor` | KnovasConnector/src/sync/document_text.py:751-787 | a library that counts skipped pages always gives counted notes, and a note only with pages missing |
| `Uploader.SendParts` | KnovasConnector/src/sync/knovas_uploader.py:466-491 | parts go in order up to the first refusal |
| `Uploader.UploadFile` | KnovasConnector/src/sync/knovas_uploader.py:246-521 | kept and unchanged send nothing; refused fields are posted once more without them; sent exactly when an init with a key and every part were accepted, with what became of the fields; API errors are never the file's fault |
| `Reextract.NeverWorse` | KnovasConnector/src/sync/sync_executor.py:1618-1632 | over every run of counted re-extractions the pages missing at Knovas, and those recorded, never increase |
| `Reextract.UnchangedIsTheSame` | KnovasConnector/src/sync/knovas_uploader.py:386-408 | with an injective hash, at every point of a run, a re-extraction found unchanged carries the parts, title and description of the last upload that arrived, and the same fields as that one |
| `Reextract.HeldAfterStep` | KnovasConnector/src/sync/knovas_uploader.py:322-408 | Knovas holds the new text exactly when it arrived, differs and is not known to lack more pages, and the new fields exactly when the first init was accepted and echoed them; else what it held |
| `Reextract.RequeuedExactly` | KnovasConnector/src/sync/sync_state_db.py:534-547 | outdated documents are queued with a fresh count; queued and up-to-date ones, and everything else, stay |
| `Reextract.FailureCounts` | KnovasConnector/src/sync/sync_state_db.py:566-588 | a re-extraction that fails counts, and the third one releases the document |
| `Reextract.UnchangedFieldsExactly` | KnovasConnector/src/sync/knovas_uploader.py:392-447 | over every run, an unchanged re-extraction finds its fields at Knovas if and only if the last upload that arrived had them taken or Knovas had them before it |
| `Reextract.RefusedThenUnchanged` | KnovasConnector/src/sync/knovas_uploader.py:413-432 | after any upload whose fields were refused or ignored the same extraction is found unchanged, and Knovas is without the fields |
| `Reextract.UnchangedAndSaidTaken` | KnovasConnector/src/sync/doc_fields_payload.py:582-596 | over every run, where the stored outcome says staged, cleared or none the fields of the last upload are at Knovas |
| `Reextract.WorseExactly` | KnovasConnector/src/sync/knovas_uploader.py:322-408 | the text gets worse if and only if another text lands whose pages are uncounted, or more than held while the record has no count |
| `Backfill.OneNight` | KnovasConnector/scripts/backfill_partial_ocr.py:324-330 | an upload clears the note, strictly lowers its count or marks it |
| `Backfill.NightExactly` | KnovasConnector/scripts/backfill_partial_ocr.py:278-331 | what a night does to a partial document: left alone when marked, cleared unsent when complete after all, else uploaded and marked exactly when both counts are known and no fewer pages are missing |
| `Backfill.BillingIsBounded` | KnovasConnector/scripts/backfill_partial_ocr.py:251-330 | over any nights a document is uploaded at most once more than the pages it lacked |
| `Backfill.BoundIsReached` | KnovasConnector/scripts/backfill_partial_ocr.py:145-152 | the bound is met by a run for every number of missing pages |
| `Backfill.BackfillRun` | KnovasConnector/scripts/backfill_partial_ocr.py:246-331 | the loop over the store does to each chosen document what one night does, touches no other, chooses up to the limit in order, and bills as many as were located and not done with |
| `Backfill.StaysSelectedExactly` | KnovasConnector/scripts/backfill_partial_ocr.py:145-152 | a night leaves the document to the next one if and only if it is still partial and uncounted or strictly better |
| `Backfill.UncountedIsBilledEveryNight` | KnovasConnector/scripts/backfill_partial_ocr.py:138-152 | over any nights whose uploads carry no counts every one is billed |
| `Inventory.HonestFeed` | KnovasConnector/src/m365/inventory.py:95-119 | items whose last word on every id is true take the old view to the new one, carried names included |
| `Inventory.FinalStatesAreHonest` | KnovasConnector/src/m365/inventory.py:212-233 | reporting each changed item's present state, in any order and with repeats, is such a feed |
| `Inventory.StagePage` | KnovasConnector/src/m365/inventory.py:220-231 | one page applied to the staged copy, counting items with an id |
| `Inventory.StageFeed` | KnovasConnector/src/m365/inventory.py:213-236 | the loop over pages ends as the feed ends and has staged and counted all that it delivered |
| `Inventory.DriveInventory.RefreshFrom` | KnovasConnector/src/m365/inventory.py:212-254 | staged over all pages and swapped in only with a link and the folder present; saved only when changed or first |
| `Inventory.DriveInventory.Refresh` | KnovasConnector/src/m365/inventory.py:196-210 | an expired position means one enumeration from nothing |
| `Inventory.EndingExact` | KnovasConnector/src/m365/inventory.py:216-236 | a feed ends by its first error, else with the last link a page handed over |
| `Inventory.DeliveredExact` | KnovasConnector/src/m365/inventory.py:216-233 | what it delivers are the items of the pages up to there, in order |
| `Inventory.TakenOver` | KnovasConnector/src/m365/inventory.py:212-254 | a feed is taken over at its link if and only if it ended with one and the folder is the root or in the view it leads to; every other ending has its own outcome and changes nothing; saved exactly when first or with items |
| `Inventory.RefreshTakesOver` | KnovasConnector/src/m365/inventory.py:196-254 | the same of a whole refresh, of the full feed exactly when the held link has expired |
| `Inventory.FailureChangesNothing` | KnovasConnector/src/m365/inventory.py:212-246 | a failed feed, a missing link or a missing folder leaves memory and disk as they were |
| `Inventory.SavedViewIsCurrent` | KnovasConnector/src/m365/inventory.py:247-253 | the unsaved refreshes are those that leave the saved view equal to the one in memory |
| `Inventory.EveryRunKeepsReplica` | KnovasConnector/src/m365/inventory.py:152-254 | over every run of changes, refreshes, failed saves and restarts, memory and disk are the drive at their links |
| `Inventory.Converge` | KnovasConnector/src/m365/inventory.py:152-172 | two histories that stand at one position of one drive hold the same view |
| `Paths.PathStep` | KnovasConnector/src/m365/inventory.py:264-276 | a path is the parent's path and the name; none without parent, safe name or a path above |
| `Paths.PathIsHarmless` | KnovasConnector/src/m365/inventory.py:264-276 | every path is made of harmless components, one for each step of the chain |
| `Paths.LinkedExactly` | KnovasConnector/src/m365/inventory.py:264-276 | only an item with a parent and a harmless name, other than the root, has a path |
| `Paths.CycleHasNoPath` | KnovasConnector/src/m365/inventory.py:264-276 | an item whose parent chain returns to it has no path |
| `Paths.PathResolver.Resolve` | KnovasConnector/src/m365/inventory.py:261-278 | the recursion on the shared cache is the function that also says what it leaves there |
| `Paths.NeverWrong` | KnovasConnector/src/m365/inventory.py:261-278 | whatever was asked before, an answer is the item's path or none, and earlier answers stay |
| `Paths.RightWithin` | KnovasConnector/src/m365/inventory.py:261-278 | within the bound an exact cache gives the path and stays exact |
| `Paths.FirstAnswer` | KnovasConnector/src/m365/inventory.py:261-278 | asked first, an item gets its path if and only if its chain is within 256 |
| `Paths.DeepItemSpoilsAncestors` | KnovasConnector/src/m365/inventory.py:261-278 | asked after an item beyond the bound below it, an item within the bound gets its path if and only if it is more than 256 steps above |
| `Paths.DeepestSpoilsFirst` | KnovasConnector/src/m365/inventory.py:261-278 | on a line of 257 folders the last one spoils the first |
| `Paths.Answers` | KnovasConnector/src/m365/inventory.py:261-278 | while nothing beyond the bound was asked for, every answer in any order is the plain chain walk's |
| `Paths.Files` | KnovasConnector/src/m365/inventory.py:280-302 | the loop over the dictionary lists what the function of its order says |
| `Paths.ListedAreFiles` | KnovasConnector/src/m365/inventory.py:280-302 | in every order what is listed are files at their paths |
| `Paths.EveryOrderIsComplete` | KnovasConnector/src/m365/inventory.py:280-302 | no file path is missing in any order of the dictionary if and only if no file's chain is longer than the bound |
| `Spoiling.ListedInEveryOrderExactly` | KnovasConnector/src/m365/inventory.py:261-302 | a file's path is listed in every order of the dictionary if and only if no file beyond the bound, itself included, lies at most 256 steps below an item of its chain |
| `DriveScan.DriveCandidates` | KnovasConnector/src/sync/sync_executor.py:519-570 | the loops yield exactly the listed files below a source that pass its filters; stopped exactly when the stop comes before the last look, and then what was yielded up to it |
| `DriveScan.BelowExactly` | KnovasConnector/src/sync/sync_executor.py:551-560 | a path belongs to a source exactly when it is its prefix and more, one level only unless it descends |
| `DriveScan.DriveDeletionSafety` | KnovasConnector/src/sync/sync_executor.py:519-570 | a document still on the drive is never taken for gone, in any order, unless a file beyond the bound lies at most 256 steps below an item of its chain |
| `DriveScan.KeptInEveryOrderExactly` | KnovasConnector/src/sync/sync_executor.py:519-570 | with one source that condition is exact: a candidate in every order if and only if nothing can spoil its chain |
| `DriveScan.DeepDocumentIsTakenForGone` | KnovasConnector/src/sync/sync_executor.py:519-570 | a document beyond the bound is missing from the candidates in some order |
| `Paths.RenameMovesSubtree` | KnovasConnector/src/m365/inventory.py:261-278 | renaming a folder exchanges its path in exactly its descendants' paths |
| `Scheduler.StepInv` | KnovasConnector/src/sync/sync_scheduler.py:469-603 | every atomic step keeps lock ownership and the promise of a stop that got the lock |
| `Scheduler.OneRunAtATime` | KnovasConnector/src/sync/sync_scheduler.py:469-478 | in every interleaving at most one sync run is active |
| `Scheduler.StopMeansStopped` | KnovasConnector/src/sync/sync_scheduler.py:591-603 | a stop that obtained the lock returns with no session active and the status not_running |
| `Scheduler.StopIsHeeded` | KnovasConnector/src/sync/sync_scheduler.py:517-588 | the session active when the event is set never sees it cleared and begins no further run |
| `Scheduler.StopGetsLockExactly` | KnovasConnector/src/sync/sync_scheduler.py:600-601 | in every interleaving a stop obtains the lock if and only if no session is active at that moment, and gives up if and only if one is |
| `Scheduler.TimedOutStop` | KnovasConnector/src/sync/sync_scheduler.py:591-603 | an interleaving in which a timed-out stop returns while a run is active |
| `KeysetPaging.ListingPermutes` | KnovasPlatform/mock_knovas_api/app.py:2004-2028 | the listing is a permutation of the matching rows |
| `KeysetPaging.ListingInOrder` | KnovasPlatform/mock_knovas_api/app.py:2004-2028 | two stable sorts give the listing order: key, nulls last, pointer |
| `KeysetPaging.BeyondIsAfter` | KnovasPlatform/mock_knovas_api/app.py:2029-2042 | the code's comparison is exactly being later in that order |
| `KeysetPaging.FollowInOrder` | KnovasPlatform/mock_knovas_api/app.py:2029-2047 | over a changing store all pages together are in listing order |
| `KeysetPaging.StableRowOnce` | KnovasPlatform/mock_knovas_api/app.py:2004-2047 | a row that stays as it is comes exactly once although others come, go and move between pages |
| `KeysetPaging.EnoughPagesEnd` | KnovasPlatform/mock_knovas_api/app.py:2044-2047 | a walk over an unchanged listing ends |
| `KeysetPaging.UnchangedStorePages` | KnovasPlatform/mock_knovas_api/app.py:2004-2047 | on an unchanged store the pages concatenate to the listing, cut at the scan budget |
| `KeysetPaging.PageExactly` | KnovasPlatform/mock_knovas_api/app.py:2044-2062 | a page is the first `limit` rows after the cursor in listing order, or as many as there are; a next cursor exactly when more are left, at the page's last row; complete exactly without one and within the budget |
| `KeysetPaging.ScannedExactly` | KnovasPlatform/mock_knovas_api/app.py:2023-2028 | a request scans the listing up to the budget |
| `Strings.StringLeExactly` | KnovasPlatform/mock_knovas_api/app.py:2016-2022 | texts are ordered by the first code point in which they differ, a prefix first |
| `KeysetPaging.CompleteIsComplete` | KnovasPlatform/mock_knovas_api/app.py:2059-2062 | an answer says complete exactly when nothing of the listing is left |
| `Calendar.LastDayIsLast` | KnovasPlatform/mock_knovas_api/app.py:451-452 | the day before the next month is the month's last day; there is none only for December 9999 |
| `Calendar.DayBeforeIsOneLess` | KnovasPlatform/mock_knovas_api/app.py:451-452 | the day before has the ordinal before, across months, years and leap days |
| `Calendar.MonthLength` | KnovasPlatform/mock_knovas_api/app.py:451-452 | a month is as long as the next one begins after it in the ordinal calendar |
| `Calendar.RoundTrip` | KnovasPlatform/mock_knovas_api/app.py:469-536 | a label reads back as its interval if and only if it is no range and has a four-digit year or is a day |
| `Calendar.RangeReads` | KnovasPlatform/mock_knovas_api/app.py:536-536 | the two halves of a range read back as its first and its last day |
| `Calendar.LabelOverflowsExactly` | KnovasPlatform/mock_knovas_api/app.py:524-536 | printing fails exactly from the first of July, October or December 9999 |
| `Calendar.LabelsAreDistinct` | KnovasPlatform/mock_knovas_api/app.py:524-536 | from the year 1000 different intervals have different labels |
| `Calendar.MonthsPrintBack` | KnovasPlatform/mock_knovas_api/app.py:463-490 | every month and year read in is printed in its own form |
| `Calendar.QuartersPrintBack` | KnovasPlatform/mock_knovas_api/app.py:469-490 | every quarter and half read in is printed in its own form |
| `TokenBucket.TokenBucketStrategy.Acquire` | KnovasConnector/src/util/rate_limiter.py:40-60 | takes from one bucket only, evicts only the least recently used, never grants above the maximum |
| `TokenBucket.AcquireAll` | KnovasConnector/src/util/rate_limiter.py:40-60 | asking one identifier again and again through the limiter grants and leaves what the functions on one bucket say |
| `TokenBucket.FillsPerSecond` | KnovasConnector/src/util/rate_limiter.py:54-60 | a bucket fills by the rate for every second up to its size, and grants exactly what it then holds |
| `TokenBucket.GrantedPerSecond` | KnovasConnector/src/util/rate_limiter.py:54-60 | from any moment to a granted reading at most the size and the rate for every second between are granted |
| `TokenBucket.RefillIsSteady` | KnovasConnector/src/util/rate_limiter.py:54-55 | a constant rate is additive over time and never negative forwards |
| `TokenBucket.Conserved` | KnovasConnector/src/util/rate_limiter.py:40-60 | tokens left, granted and spilled equal those at the start plus the refill between the stamps |
| `TokenBucket.GrantedIsBounded` | KnovasConnector/src/util/rate_limiter.py:40-60 | between any two moments, in any order of readings, the bound holds if nothing is owed at the end |
| `TokenBucket.LastReadingDecides` | KnovasConnector/src/util/rate_limiter.py:54-60 | between any two moments, a window ending in a granted reading meets the bound; one ending in a refused reading if and only if the refilled bucket, with what spilled and what was missing at the start, was not below zero |
| `TokenBucket.RefusedWithinBoundExactly` | KnovasConnector/src/util/rate_limiter.py:54-60 | from a full bucket and without a spill, if and only if the code's own guard value is not negative |
| `TokenBucket.BoundToLatestReading` | KnovasConnector/src/util/rate_limiter.py:40-60 | measured to the latest reading the bound holds between any two moments of every run |
| `TokenBucket.InOrderOwesNothing` | KnovasConnector/src/util/rate_limiter.py:40-60 | readings in order never leave a bucket owing |
| `TokenBucket.LateRefusalExceeds` | KnovasConnector/src/util/rate_limiter.py:54-60 | for every bucket, rate, cost and lateness, asking an emptied bucket at an earlier time breaks the bound between the stamps |
| `OcrCache.OcrDiskCache.Get` | KnovasConnector/src/sync/ocr_cache.py:191-213 | a hit exactly when the key is stored, its value, and its use noted |
| `OcrCache.OcrDiskCache.Put` | KnovasConnector/src/sync/ocr_cache.py:215-238 | stored in place of an older row, indexed, evicted to the cap |
| `OcrCache.OcrDiskCache.Evict` | KnovasConnector/src/sync/ocr_cache.py:242-256 | the batched loop drops the least recently used one by one, with their index rows |
| `OcrCache.EvictedExact` | KnovasConnector/src/sync/ocr_cache.py:242-256 | what stays is the longest tail of the order of use that fits |
| `OcrCache.OcrDiskCache.PurgeDocument` | KnovasConnector/src/sync/ocr_cache.py:263-294 | removes the document's index rows and the entries nobody else holds, and counts them |
| `OcrCache.UnheldExact` | KnovasConnector/src/sync/ocr_cache.py:275-288 | an entry goes if and only if this document alone holds it |
| `OcrRuns.EveryRunFits` | KnovasConnector/src/sync/ocr_cache.py:191-294 | after every run the bytes are within the cap and index rows point at live entries |
| `OcrRuns.NoRoomNoEntries` | KnovasConnector/src/sync/ocr_cache.py:215-217 | without room the cache stays empty over every run |
| `OcrRuns.NewestSurvives` | KnovasConnector/src/sync/ocr_cache.py:215-256 | an entry put with the newest stamp survives its own eviction |
| `OcrUses.StampIsLastUse` | KnovasConnector/src/sync/ocr_cache.py:191-238 | after every run an entry's stamp is the time of its last accepted put or its last get |
| `OcrUses.LaterUsedStays` | KnovasConnector/src/sync/ocr_cache.py:242-256 | after every run a put forgets in the order of last use: what was used later than an entry that stays, stays |
| `Encoding.SizeIsBytes` | KnovasConnector/src/sync/ocr_cache.py:215-220 | the size that is counted is the length of the text in UTF-8 |
| `Encoding.Utf8ReadsBack` | KnovasConnector/src/sync/ocr_cache.py:218-218 | a character's bytes announce their number and decode to it |
| `OcrRuns.HitIsLastPut` | KnovasConnector/src/sync/ocr_cache.py:191-238 | after every run a hit is the last accepted value of its key |
| `OcrRuns.HitIsLastOfferedExactly` | KnovasConnector/src/sync/ocr_cache.py:191-238 | a hit is the value put last if and only if that was taken or equals the one taken before |
| `OcrRuns.OversizedPutLeavesTheOld` | KnovasConnector/src/sync/ocr_cache.py:215-220 | after any run a put over the cap changes nothing |
| `OcrRuns.PurgingAllEmpties` | KnovasConnector/src/sync/ocr_cache.py:263-294 | when every put named a document, purging all documents empties the cache |
| `Payload.Clean` | KnovasConnector/src/sync/doc_fields_payload.py:178-218 | a value is dropped exactly when it is no acceptable scalar, an empty list, a list over 32 or one without an acceptable item; a kept one has its acceptable items |
| `Payload.FilterInOrder` | KnovasConnector/src/sync/doc_fields_payload.py:200-207 | items are kept in order and with their repeats |
| `Payload.KeepsExactly` | KnovasConnector/src/sync/doc_fields_payload.py:178-190 | acceptable are texts up to 256 characters that are not all blank, finite numbers and truth values |
| `FieldKeys.MatchesExactly` | KnovasConnector/src/sync/doc_fields_payload.py:221-228 | a key is one to 64 lower-case letters, digits and underscores from a letter on; one line break may follow |
| `FieldKeys.AllowsExactly` | KnovasConnector/src/sync/doc_fields_payload.py:221-228 | both together decide which keys are used |
| `FieldKeys.SystemExactly` | KnovasConnector/src/sync/doc_fields_payload.py:224-225 | a key is a system key exactly when its words are those of one of the five, however it is written |
| `Encoding.EscapeReadsBack` | KnovasConnector/src/sync/doc_fields_payload.py:231-233 | a JSON reader gets every text back |
| `Encoding.EncodedSizeIsBytes` | KnovasConnector/src/sync/doc_fields_payload.py:231-233 | the size that is capped is the length of the compact JSON object in UTF-8 |
| `Payload.Victim` | KnovasConnector/src/sync/doc_fields_payload.py:236-246 | the lowest layer present, in it the largest or the last key |
| `Payload.CapKeys` | KnovasConnector/src/sync/doc_fields_payload.py:291-293 | at most 64 stay, the first by layer and key, counted |
| `Payload.CapBytes` | KnovasConnector/src/sync/doc_fields_payload.py:294-296 | the encoded size fits and the last drop was needed |
| `Payload.CleanFields` | KnovasConnector/src/sync/doc_fields_payload.py:275-289 | exactly the allowed keys with their winning layer's cleaned value, in key order |
| `Payload.Assemble` | KnovasConnector/src/sync/doc_fields_payload.py:249-298 | both caps hold, no value comes from a losing layer, nothing of a higher layer goes while a lower one stays, every clean field is sent or counted by its cap, and no more is dropped than had to be |
| `PayloadOnce.OnePayload` | KnovasConnector/src/sync/doc_fields_payload.py:249-298 | for all layers only one payload meets that contract |

## Left out

- Chunking.TextChunksWithLocation: `_is_char_boundary` is true on every input, so the fallbacks for a part that would not grow are not modelled; table-to-part assignment is not either.
- Chunking.LocationIsAtSentence: asks for sentences in the order of the text, as the extractor lists them.
- Provenance.PageProvenance: a declared page below 1 is not sent (`chunking.py:219`, `knovas_uploader.py:150`), so the reading starts from it only where it is at least 1; needs text and headings without form feeds and text pages that start in the order of their indices, as the extractor promises.
- Walk.WalkFiles: paths are sequences of names; symbolic links and the extension and glob filters are folded into which entries are folders and a filter on paths.
- Prune.SyncCycle: the uploads of the cycle are any subset of what was scanned; sources outside the watch roots and placeholder roots are not modelled.
- DriveScan.DriveDeletionSafety: asks that no two files of the drive share a path, as Microsoft 365 keeps it; extension, globs and size are one filter.
- Resume.CutKeepsFolders: asks that no folder holds two entries of one name, as does Resume.CutKeepsFiles.
- Subfolders.CompletionMeansAllClean: speaks of the stored list; a source that could not be listed when first seen is stored as an empty list and reported complete, and listing a source again is not modelled.
- Recording.RecordUploadOutcome: counters, metrics and log lines of a cycle; upper-case letters beyond A to Z in error texts; blanks around an error text.
- Uploader.UploadFile: retries, backoff and rate limiting inside one request, the context sidecar, and the reading of the server's echo and refusal bodies, which enter as parsed answers.
- Reextract.NeverWorse: a failed upload is taken to leave Knovas's text in place; a server that replaced it and then answered with an error is outside the model.
- Reextract.UnchangedIsTheSame: the access groups of an init are in neither the hash nor the model; an echo of the fields is taken as all of them staged, warnings about single keys are not modelled.
- Backfill.BillingIsBounded: nights on which the upload fails, the file changed or `--retry-unchanged` was given.
- Inventory.EveryRunKeepsReplica: a link is identified with the position it stands for, and the saved file is read back as it was written or not at all.
- Scheduler.StopMeansStopped: the status a worker writes after it released the lock, and the status written by an automatic start, are not claimed at other moments.
- KeysetPaging.StableRowOnce: the encoding of cursors and their refusal when the query changed.
- Calendar.RoundTrip: the other spellings of days, months, quarters, halves, fiscal years and ranges enter as a parameter, since no label has one of them; decimal digits of other scripts.
- TokenBucket.TokenBucketStrategy.Acquire: reals instead of floating point; the answer when an exception is raised.
- OcrCache.OcrDiskCache.Put: SQLite errors, processes and threads; the table is kept in the order in which eviction reads it.
- Payload.Assemble: the counters of single values dropped while cleaning; keys are strings; numbers enter as their printed digits.
- Encoding.EncodedSizeIsBytes: numbers are printed in ASCII; their digits are a parameter.
- FieldKeys.SystemExactly: folds A to Z only; the other letters a key can fold from are refused by the pattern in any case.
- How `plan_sync_cycle` cuts its queues to the per-cycle caps, in which order a cycle uploads, how a remote file is downloaded, and the requeue endpoints: nothing is stated about them.
- HTTP, mTLS, authentication, Flask routes, metrics, schemas, templates and metadata mapping.
- knovas-extract, OCR engines and child processes: extraction is its result.
- The legacy OneDrive mirror, demo corpora and helper scripts.
