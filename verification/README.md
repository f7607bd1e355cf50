# Strmline: a verified model of its library core

Strmline keeps a directory of `.strm` playback files in step with a TorBox account and a database.  This
project models the parts of it in which state, files and time interact, and proves what they keep.
`dafny verify dfyconfig.toml` checks the whole project.

## What is modelled

- **The incremental library sync.** `SyncDecisions` decides one provider file (reuse its row, print a path, or
  skip it); `FileResolution` tells from name, identities and answers what is printed and recorded, `PathNames` where;
  `ReuseAgreement` proves when reuse agrees with reprocessing; `StrmSync` runs over all files of all
  kinds, claims paths, writes files and the manifest; `SyncRuns`, `SyncOwnership` and `FreshRuns` prove what holds
  after every run, and `ClashFreedom` from which inputs; `SyncState` and `SyncStateTables` persist a result;
  `NextRun`, `SecondSync` and `SkippedFiles` prove what that leaves to the next run, and of what was skipped;
  `SeparateFiles` derives from the listings that files are not taken for each other; `StoredIdentities`,
  `IdentityRound` and `SteadySync` follow identities through the store to the next run, and `LostIdentities` where
  they get lost; `ManifestRuns` proves what a run leaves of the manifest, `ExclusionRuns` how long an exclusion lasts;
  `OneFilm` holds a library of one film for the inputs that fail; `LibraryFiles` holds the files, the mutation
  journal and the snapshot that the journal replaces; `LibraryRemoval` stages removals in quarantine; `LibraryAgreement`
  relates database and disk over all sequences of operations, `RemovedStaysAway` exclusions and what is printed,
  and `LibraryService` contains the operations themselves. Files are a map from path to text, tables are maps, a
  transaction is a working copy beside the committed one. `Library.faultIn` is the number of effects that still
  succeed: left arbitrary, it makes every operation fail at any point.
- **The queued-sync worker** (`Scheduler`): one event for everything that happens between two awaits.
- **Season completion** (`SeasonRanking`, `SeasonCompletion`): greedy set cover under a rank.
- **State over a clock**: the circuit breaker (`FailureGuard`), the rolling request budget (`RateLimiter`)
  and the LRU and TTL caches (`ExpiringCache`), each refined from the history of its events.  Clock values
  are reals that never decrease and are never negative.
- **The media identity store** (`MediaIdentity`, `MediaMetadata`, `MediaIdentityTables`) and the identity inputs of a sync
  (`IdentityInputs`).
- **Pagination, LIKE and cursor text** (`LibraryPage`, `SqlLike`, `Base64Text`).
- **Paths and file selection** (`LibraryPaths`, `TorBoxFiles`).

Classes stand for the source's classes; their methods are proved against functions on values, and the lemmas
are about those functions.  Name parsing, hashing, folding, JSON and the provider's answers are function
parameters; injectivity is assumed only where a member's `requires` says so.

## Where the code does not meet the obvious expectation

A lemma named with each states the exact condition, and another an input that fails.

- A suffixed path is claimed without looking.  Every source keeps its own path over a step exactly when not
  all paths it may print to belong to others (`StepOwnership`); `FourthVersionTakesThirdPath` is the failure, and
  `UncontendedIsClashFree` gives conditions on the inputs of a run under which it does not happen.
- Persisting a printed file may overwrite the library entry of another.  A recorded file stays recorded exactly
  when the entry found for the next one is not its own (`RecordedUnlessTaken`); two new files of one torrent
  with the same name and size in different folders share one entry (`TwinTakesEntry`).
- A removal prefix with a trailing or doubled slash or a dot part deletes files but not rows.  Database and disk
  agree afterwards exactly when the prefix is normal or nothing lies below it (`RemovalAgreesIfNormal`), as it is
  for a removal by media item (`EntryPrefixIsNormal`); `SlashedRemovalLeavesRow` is the failure.
- The exclusion of a single file is compared with canonical paths only.  Nothing is printed below an excluded
  prefix (`TargetIsNotBelow`), but an excluded path is printed itself exactly when it is the own reusable path of
  its source, or another version's (`ExcludedTarget`); `ExcludedVersionComesBack` is the failure.
- Reuse leaves out what reprocessing would ask.  An accepted row that is kept is reprocessed alike exactly when it
  is stable: the answers of alias, provider, classifier and override would be those of the row (`KeptAgrees`).
  Against a complete identity only an override can tell the two apart (`CompleteReuseAgrees`, `MovedFilmParts`); a
  row without a TMDB id is never reprocessed alike while a provider is there to ask (`UnidentifiedNeverAgrees`).
  `UnmatchedFilmParts`, `UnselectedFilmParts`, `AliasedFilmParts`, `UncategorisedFilmParts` and `YearlessFilmParts`
  are the failures for an identity without an id, none, an alias, and one without category or year.
- The priority of a source binding, unlike its authoritative flag, can drop: exactly when the write has less of it
  and the binding is not authoritative, or both are and the item is the same (`BindingPriorityDrops`).
  `MigratedBindingFalls`, for the same and for another item, and `ManualBindingFalls` are the failures.
- One torrent is bound to one media item.  In the end a source belongs to the item of a printed file exactly when an
  authoritative binding says so or the file that decides has that item: the first authoritative one, or else the
  last (`PrintedSourceIsOwn`).  Of a torrent of two films the next sync takes the first for the second
  (`PackIsTakenForOneTitle`).
- Usenet and web downloads are bound too, but only the bindings of torrents and hashes are selected again: without
  a hash, a matched download is processed again by every sync (`MatchedDownloadIsNeverReused`).
- The diagnostic for a failed lookup says that existing library state was preserved, but in a full sync without a
  clash the row and the file of a source that is not synced survive exactly when its hash is selected and nothing
  synced carries it (`SkippedSourceSurvives`); `FailedLookupDeletesFilm` is the failure.

## Model

| member | source | states |
|---|---|---|
| LibraryFiles.RestoreUndoesRun | api/app/library/mutation_journal.py:21-35 | For every run that tracks before it mutates, stopped at any step: restoring gives exactly the files at the journal's creation, restoring twice changes nothing more, and the full snapshot's restore gives the same |
| LibraryFiles.UntrackedWriteSurvives | api/app/library/mutation_journal.py:28-35 | Tracking first is needed: an untracked write survives the journal's restore, though not the snapshot's |
| LibraryFiles.RestoredIsInitial | api/app/library/mutation_journal.py:28-35 | While every changed path is tracked with its original content, what restore puts back is the initial file map |
| LibraryFiles.LibraryMutationJournal.Track | api/app/library/mutation_journal.py:21-26 | The first tracking of a path captures its content or absence; later ones change nothing; coverage is kept |
| LibraryFiles.LibraryMutationJournal.Restore | api/app/library/mutation_journal.py:28-35 | The loop over the originals ends with exactly the files at creation |
| LibraryFiles.LibrarySyncSnapshot.Restore | api/app/library/sync_snapshot.py:30-44 | Captured files are back, uncaptured files of the captured sort are gone, all others untouched |
| LibraryFiles.WriteStrmFile | api/app/sync/torbox_strm.py:277-284 | The path holds the content afterwards, was tracked before it changed, and failure comes only from one of at most two effects |
| LibraryFiles.WriteManifestEntries | api/app/resolver/manifest.py:36-57 | The manifest holds the printed merge or replacement; an unreadable manifest stops a merge and only a merge; tracking precedes the write |
| LibraryFiles.MergeKeepsOthers | api/app/resolver/manifest.py:44-46 | Ids that a merge does not write resolve as before |
| LibraryFiles.MergeResolvesWritten | api/app/resolver/manifest.py:44-46 | Every id that was written resolves to its last target |
| ManifestRuns.PartialRunKeepsOthers | api/app/sync/torbox_strm.py:491-534 | A partial run, whatever stopped it, leaves a readable manifest readable, and every id that no listed file has resolved as before |
| ManifestRuns.FullRunResolvesListed | api/app/resolver/manifest.py:36-57 | After a full run with a resolver exactly the ids of listed files are resolved, each to its own download |
| ManifestRuns.UnresolvedRunKeepsManifest | api/app/sync/torbox_strm.py:503-512 | A full run without a resolver leaves the manifest as it is |
| LibraryFiles.RemoveStaleFiles | api/app/sync/service.py:167-169 | All stale paths are tracked before the first is deleted; exactly the playback files among them are gone |
| FileResolution.PrintedWithIdentity | api/app/sync/torbox_strm.py:384-425 | With an identity selected for item or hash, or by alias, that has a TMDB id: printed under its title, its year and poster filled in only if missing, in its category or else the one that its sort of media, classifier and override make of the parsed one, with season and episode of the file name |
| FileResolution.PrintedWithoutIdentity | api/app/sync/torbox_strm.py:402-425 | Without: the parsed category, classified and overridden, is what the provider is asked about; its answer decides title, year, identity and category, and with no provider the name does |
| FileResolution.PrintedIsRecorded | api/app/sync/torbox_strm.py:264-299 | A printed file's text leads to its own download or the resolver's address for its id; its row has its source, hash as listed or else as selected, fingerprint, and all that was resolved |
| ReuseAgreement.ReuseAgrees | api/app/sync/torbox_strm.py:311-340 | Every accepted row of a faithful entry, whatever identity is selected or none: reprocessing agrees exactly when a kept row is stable, a skipped one excluded by the same prefixes, an impossible one fails; a stable row always agrees |
| ReuseAgreement.KeptAgrees | api/app/sync/torbox_strm.py:402-425 | A row that reuse keeps is reprocessed to the same entry, id and poster exactly when the answers of alias, loader, classifier, provider and override would be those of the row |
| ReuseAgreement.UnidentifiedNeverAgrees | api/app/sync/torbox_strm.py:408-422 | A kept row without a TMDB id is never reprocessed alike while there is a provider that resolves with ids only: reuse leaves out the retry |
| ReuseAgreement.CompleteReuseAgrees | api/app/sync/torbox_strm.py:643-655 | Against a complete identity, reprocessing reaches the same refusal, exclusions or entry exactly when no override moves the entry |
| ReuseAgreement.ExclusionsAreOfOneCategory | api/app/sync/torbox_strm.py:697-708 | No excluded prefix matches entries of two categories |
| OneFilm.UnmatchedFilmParts | api/app/sync/torbox_strm.py:408-411 | A selected identity without a TMDB id, and a provider that finds one by now: the film is reused unmatched, reprocessing would match it |
| OneFilm.AliasedFilmParts | api/app/sync/torbox_strm.py:407-411 | No selected identity, and an alias that has one: reused without, reprocessed with |
| OneFilm.UnselectedFilmParts | api/app/sync/torbox_strm.py:418-425 | No identity at all, and a provider that finds one by now |
| OneFilm.UncategorisedFilmParts | api/app/sync/torbox_strm.py:415-416 | An identity that lacks only its category, and a classifier that takes the film for anime |
| OneFilm.YearlessFilmParts | api/app/sync/torbox_strm.py:427-455 | An identity that lacks only its year, and a provider that knows it |
| OneFilm.MovedFilmParts | api/app/sync/torbox_strm.py:380-382 | A complete identity, and an override that moves its film to anime |
| StrmSync.TargetIsFree | api/app/sync/torbox_strm.py:342-378 | The target path is unclaimed or the source's own exactly when not all candidate paths belong to others |
| PathNames.FirstFreePath | api/app/sync/torbox_strm.py:342-378 | A source keeps its offered path; a new one goes to the canonical path if free, else to that of another version if free, else to the one with its id |
| PathNames.VersionPaths | api/app/library/version_paths.py:26-44 | Letter by letter: the canonical name, the labels of folder and file name behind it, each once, or `Alternate`, and the first eight characters of the id behind that |
| PathNames.DedupMeaning | api/app/library/version_paths.py:40-44 | Each label once, in the order in which they are first found |
| StrmSync.PrintedEntry | api/app/sync/torbox_strm.py:244-250 | A printed entry is valid, plays its own file, and keeps the season and episode parsed from its own name, through identity, classifier and override |
| StrmSync.TorBoxStrmSync.ClaimTargetPath | api/app/sync/torbox_strm.py:342-378 | The early-return branches compute the target path and claim it for the source, and no other claim changes |
| StrmSync.TorBoxStrmSync.SyncFile | api/app/sync/torbox_strm.py:203-300 | One file is decided and done as specified unless an effect fails, an unreadable file being processed again; the journal covers the files on every exit |
| StrmSync.TorBoxStrmSync.SyncBatch | api/app/sync/torbox_strm.py:200-213 | One kind is gone through in order until the limit is reached, with extraction's drops counted |
| StrmSync.TorBoxStrmSync.WriteResult | api/app/sync/torbox_strm.py:491-534 | A manifest is written when there are entries or a full run has a resolver; partial results merge, full ones replace |
| StrmSync.TorBoxStrmSync.Run | api/app/sync/torbox_strm.py:181-309 | The nested loops refine the run specification: result and files agree with it unless an effect fails, a limit of zero is refused, and the journal covers every exit |
| SyncRuns.RunAccounts | api/app/sync/torbox_strm.py:187-309 | On every exit synced plus skipped equals scanned plus dropped; a run that ends scanned everything, one that stops at its limit part of the last kind |
| SyncRuns.ListedIsSyncedOrSkipped | api/app/sync/torbox_strm.py:200-203 | From the raw listings on, every listed file of a run that ends is synced or skipped exactly once |
| SyncRuns.FullRunReports | api/app/sync/torbox_strm.py:491-534 | A full run reports all listed files as scanned, each of these and of those dropped as synced or skipped, as reused those synced that were, and as written the distinct paths |
| SyncRuns.LimitedRunReports | api/app/sync/torbox_strm.py:188-216 | A run with a file limit refuses the limit zero, syncs no more than the limit, and reports itself partial exactly when it left a listed file unseen; then it has synced as many as it may |
| SyncRuns.TargetIsGenerated | api/app/sync/torbox_strm.py:342-378 | Whatever the titles, labels and ids, a target is a `.strm` file below a category folder |
| SyncRuns.StepShape | api/app/sync/torbox_strm.py:214-300 | Every step skips its file or syncs it; a reused file is on disk as it should be and nothing is written, a printed one is written to its claimed target |
| SyncRuns.RunGrows | api/app/sync/torbox_strm.py:181-309 | A run only adds files, exactly at the printed library paths; all synced files exist, printed rows are faithful to their file names, reused rows are as offered |
| SyncOwnership.StepOwnership | api/app/sync/torbox_strm.py:342-378 | A step leaves all reusable and synced sources with their own path and playback file exactly when its file finds a path that no other source holds |
| SyncOwnership.FourthVersionTakesThirdPath | api/app/sync/torbox_strm.py:368-377 | Four files of one title with one label and two equal id prefixes: the fourth takes the path of the third |
| SyncOwnership.RunKeepsRunInv | api/app/sync/torbox_strm.py:174-309 | Over every run without such a clash: reusable paths are never taken, synced files own and play their paths, claims are backed, the manifest lists them |
| SyncOwnership.SyncedFilesPlay | api/app/sync/torbox_strm.py:181-309 | After a run without a clash, however it ended: distinct sources have distinct paths, each path holds its own playback address, each row its own hash, and the manifest read back leads to the file's own download |
| SyncOwnership.ReuseEqualsReprocessing | api/app/sync/torbox_strm.py:224-300 | With no override on the resolved prefix, reusing and reprocessing give the same files, claims, counters, exclusions and record |
| SyncOwnership.StableReuseEqualsReprocessing | api/app/sync/torbox_strm.py:224-300 | With a stable row, of whatever identity, a step that reuses and one that does not give the same files, claims, counters, exclusions and record |
| FreshRuns.RunEqualsFreshRun | api/app/sync/torbox_strm.py:181-309 | Over whole runs without a clash in which every acceptable row is stable: one that reuses and one that never does give the same files, claims, manifest, records and counters |
| FreshRuns.ResultsEqual | api/app/sync/torbox_strm.py:181-309 | Their results and the files they leave, manifest included, differ at most in the number of reuses, or both raise the same error |
| ClashFreedom.UncontendedIsClashFree | api/app/sync/torbox_strm.py:342-378 | If ids differ in their first eight characters, no label and no yearless title ends in a bracket and reusable paths that do carry their own tag, no two sources contend for a path in any run over these listings |
| SyncState.PersistKeepsDb | api/app/db/repositories/sync_state.py:41-69 | Afterwards the rows are those before and those printed less the stale ones; no synced path goes stale; a partial result makes nothing stale; unique indexes hold |
| SkippedFiles.SkippedSourceSurvives | api/app/sync/service.py:134-171 | In a full sync without a clash a reusable source that is not synced, unlisted, failed or excluded, keeps its row and its file exactly when its hash is selected and no synced file carries it |
| SkippedFiles.FailedLookupDeletesFilm | api/app/sync/torbox_strm.py:250-256 | In a library of one film whose lookup fails, the full sync completes and row and file are gone |
| SkippedFiles.RunKeepsOwnIds | api/app/db/repositories/sync_state.py:161-214 | Over every sequence of operations entries stay under the ids of their own files |
| SyncState.RecordedUnlessTaken | api/app/db/repositories/sync_state.py:161-214 | Persisting one file leaves another recorded exactly when the entry found for the first is not the other's |
| SyncState.PersistRecordsAll | api/app/db/repositories/sync_state.py:161-286 | When no two printed files share path, source or lookup keys, each ends with its own row: hash, fingerprint and entry |
| SyncState.TwinTakesEntry | api/app/db/repositories/sync_state.py:179-187 | Two new files with equal hash, name and size in different folders end with both rows on one entry |
| SyncState.PersistedIsReadBack | api/app/db/repositories/sync_state.py:71-124 | A persisted file is read back as it was, with title, year, poster and TMDB id as its media item has them and under the name of its folder if it has one |
| SyncState.FoundIsSought | api/app/db/repositories/sync_state.py:161-187 | The entry is sought by id, only if that finds none by hash and path, only then by hash, name and size; one is found, none, or several are an error |
| SyncState.ReusableRows | api/app/db/repositories/sync_state.py:71-124 | The rows offered to a run have distinct library paths, each under its own source key |
| ExclusionRuns.SyncKeepsExclusions | api/app/sync/service.py:401-413 | After a completed item sync all exclusions stay; after a full one exactly those under which some listed file came, and all if some lookup failed |
| ExclusionRuns.RunNotes | api/app/sync/torbox_strm.py:235-276 | A run observes a prefix exactly when it comes to a listed file whose reused or resolved entry lies under it, and notes a failed lookup exactly when one fails |
| ExclusionRuns.RemovalExcludes | api/app/library/removal_service.py:50-61 | After a committed removal the exclusions are those before and the prefix, and exactly the rows at or below it are gone |
| ExclusionRuns.RemovedUntilUnseen | api/app/db/repositories/library_exclusion.py:27-72 | From a committed removal on, nothing lies below its prefix in rows or on disk, in every state up to and including the one that the first full sync leaves which comes to nothing under it, whatever is listed |
| ExclusionRuns.ListedStaysExcluded | api/app/db/repositories/library_exclusion.py:67-72 | While every full sync lists a file that comes under it, an excluded prefix stays excluded, and nothing lies below it in any later state |
| SyncState.PersistKeepsFaithful | api/app/db/repositories/sync_state.py:199-214 | Entries keep the season and episode of their own file names |
| SyncStateTables.SyncLibraryStateRepository.FindEntry | api/app/db/repositories/sync_state.py:167-187 | The first rule that some row matches decides; several matches raise |
| SyncStateTables.SyncLibraryStateRepository.UpsertEntry | api/app/db/repositories/sync_state.py:161-214 | The found entry, or a new one, takes every column of the synced file; a violated index raises and changes nothing |
| SyncStateTables.SyncLibraryStateRepository.PersistFile | api/app/db/repositories/sync_state.py:50-56 | Afterwards the file is recorded: its path leads to an entry with its source, under its hash and fingerprint; the unique indexes still hold; a violated one raises |
| SyncStateTables.SyncLibraryStateRepository.RemoveStaleGeneratedFiles | api/app/db/repositories/sync_state.py:288-327 | Exactly the rows that are neither current nor retained are deleted, and their paths returned |
| SyncStateTables.SyncLibraryStateRepository.PersistResult | api/app/db/repositories/sync_state.py:41-69 | The loop and the stale pass refine the persistence specification unless an effect fails |
| SyncStateTables.SyncLibraryStateRepository.ReusableFiles | api/app/db/repositories/sync_state.py:71-124 | One row for every source that a generated file leads to, and for no other |
| NextRun.FullSyncPreparesNext | api/app/db/repositories/sync_state.py:41-124 | After a full sync of separate files the next run reuses each of them exactly when file, address, fingerprint and disk are unchanged and the view of its media item agrees with the identity then selected |
| NextRun.FullStepPreparesNext | api/app/sync/service.py:107-185 | The same for every completed full sync from an agreeing state, with nothing assumed of the database or of what the run printed |
| NextRun.RunIsRecorded | api/app/sync/service.py:134-158 | What a run from an agreeing state hands to persistence has generated paths, and what it reused has its rows |
| NextRun.AcceptedRowsReprocessAlike | api/app/db/repositories/sync_state.py:71-124 | In every state of every sequence of operations with one parser, each row offered and accepted is faithful, and a step that reuses it comes to what reprocessing would if it is stable, or complete and not overridden |
| SecondSync.SecondSyncChangesNothing | api/app/sync/service.py:107-185 | A full sync of separate files and then another over the same listings: if each file synced is unchanged under the identities that the second run selects and still not excluded, and what was skipped is skipped again, the second reuses every file of the first and leaves files, manifest, entries and rows as they are |
| SeparateFiles.RunIsDrawn | api/app/sync/torbox_strm.py:200-300 | If no two listed files share source, or under one hash path or name and size, a run syncs each source at most once, under the id, hash and fingerprint of its own listing, and no twins |
| SeparateFiles.UncontendedIsSeparate | api/app/sync/torbox_strm.py:181-309 | With the conditions on ids, labels and titles under which no paths are contended, what a full run syncs is separate: distinct paths, sources and lookup keys |
| StoredIdentities.DeciderOwns | api/app/db/repositories/sync_state.py:126-159 | Persisting any run: a source keeps an authoritative binding; otherwise it ends with the item of the first authoritative printed file of the source, or else of the last |
| StoredIdentities.PrintedSourceIsOwn | api/app/db/repositories/media_identity.py:298-347 | The source of a printed file ends up with the file's item exactly when that binding or that file has it |
| StoredIdentities.SourcesFollow | api/app/db/repositories/media_identity.py:208-241 | If the files of each source have one item and no source was bound authoritatively to another, every source ends up bound to the item of its files, reused ones included |
| StoredIdentities.HashIsTaken | api/app/db/repositories/media_identity.py:208-241 | The well-formed hash of a printed file is bound as its item is, and the name it was found under becomes an alias |
| StoredIdentities.PersistKeepsJoined | api/app/db/repositories/sync_state.py:126-214 | Persisting rows and identities together leaves every entry with an item that exists |
| IdentityRound.BoundIsSelected | api/app/sync/identity_inputs.py:158-180 | In whatever order the bindings are read back: what is selected for a bound torrent is the identity of its binding, unless something stronger was selected for it |
| IdentityRound.BoundReadsAlike | api/app/sync/torbox_strm.py:643-655 | A torrent bound to the item of its file, and not outranked: the item is read as the selected identity exactly when its category is that of the file |
| IdentityRound.BoundHashIsSelected | api/app/sync/identity_inputs.py:158-180 | For a bound hash, whatever the case of its letters, an identity is selected that is no weaker than the binding |
| IdentityRound.KnownIsStored | api/app/sync/identity_inputs.py:218-237 | The identity read back has title, year, poster and category of the item, id and sort of media of its TMDB identity if it has one, and the evidence of the binding, with a stand-in for a missing version |
| LostIdentities.PackIsStored | api/app/db/repositories/media_identity.py:208-241 | A new torrent of two titles meets no conflict when it is persisted, whatever is stored already |
| LostIdentities.PackIsTakenForOneTitle | api/app/sync/torbox_strm.py:384-425 | Of a new torrent with two titles, each with its own TMDB id, the next sync accepts no row of the first and processes its file under title and id of the second |
| LostIdentities.MatchedDownloadIsNeverReused | api/app/sync/identity_inputs.py:163-180 | Where no torrent has the id and there is no hash, no identity is selected, and a row with a TMDB id is never accepted |
| LostIdentities.OneIdentityOneOwner | api/app/db/repositories/media_identity.py:142-206 | Printed files with one TMDB id, as films or as series, are persisted with one item |
| LostIdentities.NewItemReadsAsFile | api/app/db/repositories/sync_state.py:126-159 | An item made for a printed file reads as the file: title, year, poster, TMDB id, category and kind |
| SteadySync.PlainStepPreparesNext | api/app/sync/service.py:107-185 | For a completed full sync from such inputs, with nothing assumed of its result: the next run reuses each synced file exactly when it is unchanged |
| SteadySync.SyncedIsSelected | api/app/sync/identity_inputs.py:50-88 | After a full sync persisted with the items that the store finds: the item of a synced torrent file is read as the identity that the next run selects exactly when its category is that of the file, unless something stronger than the binding is selected |
| SteadySync.SteadySecondSync | api/app/sync/service.py:107-185 | Two full syncs over the same plain listings of torrents, the second with identities read from the store: it reuses all that the first synced and leaves files, entries, rows and identity store as they are |
| NextRun.OnePathPerEntry | api/app/db/repositories/sync_state.py:288-327 | After the stale pass only its own path leads to the entry of a synced file |
| NextRun.PersistRecordsUpTo | api/app/db/repositories/sync_state.py:50-56 | Persisting separate files one by one disturbs the row of no other, printed before or reused |
| LibraryRemoval.StagedMeaning | api/app/library/removal.py:46-50 | Staged are exactly the files at and below the target, none if the target is itself a file and its name no stem followed by `.strm` |
| LibraryRemoval.RenameRoundTrip | api/app/library/removal.py:23-31 | Renaming a subtree to an unused place and back restores every file |
| LibraryRemoval.StagingRoundTrip | api/app/library/removal.py:42-60 | A staged removal is undone exactly by restoring; finalized, it removed the staged paths and nothing else |
| LibraryRemoval.StagedLibraryRemoval.Restore | api/app/library/removal.py:23-31 | Nothing happens without quarantined files, an occupied target raises, and otherwise all come back |
| LibraryRemoval.StagedLibraryRemoval.Finalize | api/app/library/removal.py:33-39 | The quarantined files are deleted; stopped anywhere, nothing outside the operation's quarantine has changed |
| LibraryRemoval.StageLibraryPrefixRemoval | api/app/library/removal.py:42-60 | A missing target or a file of another sort stages nothing; else the subtree moves into unused quarantine, with its playback files counted; a failure changes nothing |
| LibraryRemoval.ValidMeaning | api/app/api/library.py:766-771 | The request check accepts exactly the prefixes in the category's folder without a part of two dots, in between or at the end |
| LibraryRemoval.DotsDoNotCount | api/app/library/removal.py:46-47 | A doubled, leading or trailing slash and a dot part change nothing about the path that a prefix resolves to |
| LibraryRemoval.TargetOfValid | api/app/api/library.py:766-771 | A prefix that the request check accepts resolves to a path in its category |
| LibraryRemoval.NormalPrefix | api/app/library/removal.py:46-47 | Only a normal prefix can select a normal path |
| LibraryRemoval.EntryPrefixIsNormal | api/app/db/repositories/media_metadata.py:547-551 | The prefix of a media item, which skips the check, is normal and covers its path |
| LibraryAgreement.SyncKeepsAgreement | api/app/sync/service.py:134-171 | A completed sync keeps a row for every playback file on disk and for no other path, each with the hash of what its file plays, whatever is listed or answered |
| LibraryAgreement.SnapshotUndoesSync | api/app/library/sync_snapshot.py:18-46 | Whatever a completed sync prints, deletes as stale or writes to the manifest, restoring the full snapshot taken before gives the files as they were |
| LibraryAgreement.RunFollows | api/app/sync/torbox_strm.py:276-300 | On disk the last printed file of a path has the say, and elsewhere nothing has changed |
| LibraryAgreement.PersistFollows | api/app/db/repositories/sync_state.py:50-56 | In the rows too the last printed file of a path has the say |
| LibraryAgreement.RemovalAgreement | api/app/library/removal_service.py:48-61 | After a committed removal rows and files agree exactly when the row filter and the resolved path select the same playback files |
| LibraryAgreement.RemovalAgreesIfNormal | api/app/library/removal_service.py:48-61 | That is, exactly when the prefix is normal or no playback file lies below the path it resolves to |
| LibraryAgreement.SlashedRemovalLeavesRow | api/app/api/library.py:464-520 | In a library of one film, the accepted prefix `movies/X/` deletes the film and leaves its row |
| LibraryAgreement.RunKeepsAgreement | api/app/sync/service.py:134-185 | Over every sequence of full syncs, item syncs, failures and removals by normal prefixes, rows and playback files agree on paths and contents in every state |
| LibraryAgreement.RunKeepsFaithful | api/app/db/repositories/sync_state.py:71-124 | Over every such sequence with one parser, the rows offered for reuse stay fit for it |
| LibraryService.Service.ExecuteSync | api/app/sync/service.py:107-185 | A full sync completes as one step of the system, or files and committed tables are as before; it fails only for a missing setting, a failing effect or an error of its specification |
| LibraryService.Service.ExecuteItemSync | api/app/sync/item_service.py:85-172 | The same for one torrent, as a partial step: nothing goes stale and exclusions stay |
| LibraryService.Service.PersistSync | api/app/sync/service.py:158-170 | Persisting, exclusions, stale deletion and commit together, or the committed tables unchanged |
| LibraryService.Service.RemoveLibraryMedia | api/app/library/removal_service.py:37-84 | Before its commit a failing removal changes nothing; from then on rows and staged files are gone from the library; success leaves no other file changed |
| LibraryService.Service.CommittedRemoval | api/app/library/removal_service.py:67-79 | What fails after the commit cannot bring staged files back into the library |
| LibraryService.Service.DeleteRows | api/app/db/repositories/library_exclusion.py:50-65 | The prefix is excluded and exactly the rows its filter selects are gone, or nothing is committed |
| RemovedStaysAway.TargetIsNotBelow | api/app/sync/torbox_strm.py:268-277 | An entry that no prefix excludes is printed below none of them, under any of its names; only the very path of another version can be excluded and printed |
| RemovedStaysAway.ExcludedTarget | api/app/sync/torbox_strm.py:342-378 | For an entry that no prefix excludes, the printed path is itself excluded exactly when it is the own reusable path, or, the canonical one being held by another, the alternate or behind it the suffixed path is |
| RemovedStaysAway.ExcludedVersionComesBack | api/app/sync/torbox_strm.py:697-708 | Excluding the file of another version does not keep it away while another source holds the canonical path |
| RemovedStaysAway.SyncStaysAway | api/app/sync/service.py:158-170 | A completed sync leaves no row below a prefix that is still excluded |
| RemovedStaysAway.RemovedMediaStaysAway | api/app/db/repositories/library_exclusion.py:27-73 | Over every sequence of operations no row and no playback file lies below a folder while it is excluded |
| Scheduler.NoRequestIsLost | api/app/sync/scheduler.py:109-145 | Under every interleaving an accepted request is queued with a worker or job to take it up, or a call started after it does or did its work |
| Scheduler.RunKeepsInv | api/app/sync/scheduler.py:109-145 | Over every run pending work implies a running worker or a job, and a running worker awaits exactly the last call |
| Scheduler.QuietMeansServed | api/app/sync/scheduler.py:121-145 | With an idle worker and no job every accepted request was served by a call started after it that ran |
| Scheduler.ReturnedKeepsRequests | api/app/sync/scheduler.py:132-141 | A call that is turned away puts back exactly the work it was doing |
| Scheduler.CompletionDecreasesBacklog | api/app/sync/scheduler.py:125-141 | A completed call shrinks the backlog or stops the worker with nothing left |
| Scheduler.QueueDrains | api/app/sync/scheduler.py:121-145 | Without new requests the worker needs at most one call more than the backlog |
| Scheduler.NextCall | api/app/sync/scheduler.py:121-145 | The worker next calls the full sync if one is asked for, forgetting the items that this covers; else the item picked, which alone is taken out; and stops if there is neither |
| Scheduler.TurnedAwayWaits | api/app/sync/scheduler.py:129-145 | A call turned away ends the worker, its work is put back, and all is taken up after two seconds |
| Scheduler.EnqueuedIsTakenUp | api/app/sync/scheduler.py:109-119 | An accepted request is taken up at once unless the worker is running; one that is not accepted changes nothing |
| Scheduler.AutoSyncScheduler.EnqueuePostAddSync | api/app/sync/scheduler.py:109-119 | Accepted exactly while the scheduler runs; the request is queued and a job is there unless the worker runs |
| Scheduler.AutoSyncScheduler.RunQueuedSyncs | api/app/sync/scheduler.py:121-129 | The fired job runs to the first await as the protocol says |
| Scheduler.AutoSyncScheduler.ResumeQueuedSyncs | api/app/sync/scheduler.py:129-145 | A returning call is accounted for, its work put back or the loop continued, and the invariant kept |
| SeasonRanking.BestIsMinimal | api/app/season_completion/ranking.py:86-98 | No candidate ranks before the chosen one |
| SeasonRanking.ChosenIsForemost | api/app/season_completion/ranking.py:54-98 | In the fields of the candidates: the single complete pick, and every greedy pick among what is then eligible, untaken and useful, is cached if any is, of those of the dominant family if any is, of those has most uncovered episodes, of those the least folded title, of those stands first |
| Ordering.StringLessMeaning | api/app/season_completion/ranking.py:92-97 | Strings are ordered by the first character in which they differ, a prefix before what continues it |
| SeasonRanking.ChooseCandidates | api/app/season_completion/ranking.py:54-83 | The loop over remaining, selected and available computes the greedy selection |
| SeasonRanking.SelectionCovers | api/app/season_completion/ranking.py:61-83 | A missing episode stays uncovered exactly when no eligible candidate lists it |
| SeasonRanking.EveryPickHelps | api/app/season_completion/ranking.py:71-81 | Every pick covers an episode that the picks before it do not |
| SeasonRanking.PicksAreFew | api/app/season_completion/ranking.py:71-81 | At most as many picks as missing episodes, from distinct sources |
| SeasonRanking.SelectionIsEligible | api/app/season_completion/ranking.py:62-66 | Only cached candidates are chosen unless uncached ones are allowed |
| SeasonRanking.SelectionBound | api/app/season_completion/ranking.py:54-98 | If n eligible candidates, alike but for coverage and title, cover what is missing, i picks leave at most the fraction ((n-1)/n)^i |
| SeasonRanking.PickTakesItsShare | api/app/season_completion/ranking.py:86-98 | A pick has at least the n-th part of what remains when n candidates cover it |
| SeasonCompletion.GroupingIsExact | api/app/season_completion/discovery.py:74-105 | Grouped candidates have distinct source ids, one for every source seen, and list exactly the episodes with a stream of it |
| SeasonCompletion.CandidateIsFirstSighted | api/app/season_completion/discovery.py:74-105 | A candidate is described by the first stream of its source, and cached as the table says of its hash, or without one if it can be acted on |
| SeasonCompletion.SourceMeaning | api/app/season_completion/discovery.py:74-105 | Streams are of one source if they have one hash; without, only cached ones that can be acted on are of any, and of one if they have one key |
| SeasonCompletion.GroupStreamCandidates | api/app/season_completion/discovery.py:74-105 | The nested loops build the candidates of the sources in order of first sighting, each with its first stream |
| SeasonCompletion.SeasonCoverage | api/app/season_completion/service.py:267-330 | In a season an episode stays uncovered exactly when no title-matching eligible candidate lists it |
| SeasonCompletion.AcquireMissing | api/app/season_completion/service.py:251-330 | Covered are exactly the offered episodes; each comes from an added source; no source is added twice or again |
| SeasonCompletion.CompleteShow | api/app/season_completion/service.py:218-228 | The unresolved number counts exactly the missing episodes that nothing offered |
| FailureGuard.ResolverFailureGuard.Check | api/app/resolver/failure_guard.py:62-77 | The verdict is that of the entry's failure history alone, which it leaves unchanged |
| FailureGuard.ResolverFailureGuard.RecordFailure | api/app/resolver/failure_guard.py:79-88 | The history gains the failure; past the limit the entry whose history began first is forgotten |
| FailureGuard.ResolverFailureGuard.RecordSuccess | api/app/resolver/failure_guard.py:90-93 | The entry's history ends, no other changes |
| FailureGuard.ResolverFailureGuard.Reconfigure | api/app/resolver/failure_guard.py:55-60 | Valid limits start all histories afresh, invalid ones change nothing |
| FailureGuard.ResolverFailureGuard.PruneFailures | api/app/resolver/failure_guard.py:100-105 | Pruning changes no count of a window still to come and no deadline still to come |
| FailureGuard.DeadlineMeaning | api/app/resolver/failure_guard.py:79-88 | The one stored deadline is open exactly while some tripping failure is younger than the cooldown |
| FailureGuard.VerdictFromState | api/app/resolver/failure_guard.py:62-77 | The two stored comparisons decide circuit and negative cache as the history does |
| FailureGuard.CircuitInClockTime | api/app/resolver/failure_guard.py:79-88 | The circuit is open exactly while some failure that ends a clock window with the threshold of failures is younger than the cooldown |
| FailureGuard.SuppressionEnds | api/app/resolver/failure_guard.py:62-77 | An entry is rejected until its negative time ends and allowed once both timers have |
| ExpiringCache.LookupFromHistory | api/app/resolver/target_cache.py:40-57 | What is stored is the last put; an unexpired key with fewer than the limit of others touched since is there; with nothing expired meanwhile, exactly then |
| ExpiringCache.TouchKeepsOrder | api/app/resolver/target_cache.py:47-55 | The order stays that of last touch |
| ExpiringCache.EvictionRefines | api/app/resolver/target_cache.py:56-57 | What a put pushes out has the limit of distinct keys touched after it |
| ExpiringCache.ExpiringCache.Get | api/app/resolver/target_cache.py:40-48 | A hit returns the last put, unexpired; hits that the history promises happen; the touch or expiry is recorded |
| ExpiringCache.ExpiringCache.Put | api/app/resolver/target_cache.py:50-57 | The put is recorded with its lifetime, and size and order are kept |
| ExpiringCache.NewTorBoxManifestCache | api/app/providers/torbox/manifest_cache.py:23-61 | Absent manifests live for the second lifetime; limits that are not positive are refused |
| RateLimiter.EveryWindowWithinBudget | api/app/providers/torbox/runtime.py:39-76 | In every clock window of sixty seconds the admissions number at most the budget in force at the last of them, across reconfigurations |
| RateLimiter.WaitIsTight | api/app/providers/torbox/runtime.py:67-76 | The load is constant until the oldest call leaves the window and drops then |
| RateLimiter.TorBoxRequestCoordinator.ReserveOrWait | api/app/providers/torbox/runtime.py:67-76 | Admits exactly below the budget; a wait is positive, nothing before its end would admit, and its end frees a slot |
| RateLimiter.TorBoxRequestCoordinator.Acquire | api/app/providers/torbox/runtime.py:47-56 | A lone caller is admitted at the earliest moment at which the load is below the budget |
| RateLimiter.TorBoxRequestCoordinator.Reconfigure | api/app/providers/torbox/runtime.py:39-45 | A budget that is not positive is refused; past admissions keep counting |
| MediaIdentity.RunKeepsStore | api/app/db/repositories/media_identity.py:142-347 | Over every sequence of operations: one item per TMDB kind and id, one TMDB identity per item, one owner per source key, no entry lost or dangling, no key unbound |
| MediaIdentity.MergeUnitesOwnership | api/app/db/repositories/media_identity.py:425-454 | All that either item owned belongs to the survivor, with manual evidence where it moved; the identities of the other item are gone and nothing else changes |
| MediaIdentity.ManualIdentityIsInForce | api/app/db/repositories/media_identity.py:243-288 | The returned item carries the manual identity, its sources become manual, and both items' sources and entries are its own |
| MediaIdentity.EnsuredNeverWeakens | api/app/db/repositories/media_identity.py:483-508 | Identities keep their item, never lose priority, and authoritative ones are untouched |
| MediaIdentity.EnsuredFollowsIdentity | api/app/db/repositories/media_identity.py:142-206 | A known TMDB identity decides the item, a new one is recorded for it |
| MediaMetadata.KnownItemIsRewritten | api/app/db/repositories/media_identity.py:483-517 | Of a known identity: a sure write for an unsure identity decides title and year, and the poster if it has one; any other fills in only what is missing; no other item changes, and evidence is replaced only by stronger |
| MediaMetadata.UnknownItemIsFoundOrMade | api/app/db/repositories/media_identity.py:176-206 | Without a known identity: the one item of that kind, category, title and year that has none is taken as it is, and else a new one made of the write |
| MediaMetadata.NewIdentityIsRecorded | api/app/db/repositories/media_identity.py:190-202 | A new TMDB id is recorded for the item with the evidence of the write |
| MediaMetadata.TitleBecomesAlias | api/app/db/repositories/media_identity.py:142-206 | Exactly the alias of the title is added for the item returned |
| MediaMetadata.RunKeepsNames | api/app/db/repositories/media_identity.py:483-517 | Over every sequence of operations an item whose identity was confirmed or set by hand keeps title and year, once it has them, while it exists |
| MediaMetadata.ManualKeepsTitle | api/app/db/repositories/media_identity.py:243-288 | Setting an identity by hand leaves title and year, and takes the poster exactly if the item had another id |
| MediaMetadata.BindingIsWritten | api/app/db/repositories/media_identity.py:298-347 | A key takes item and evidence as written unless its binding is authoritative; then only an authoritative write for the same item replaces the evidence |
| MediaMetadata.AuthorityOrder | api/app/domain/media_identity.py:38-45 | By hand, confirmed, migrated, resolved, none: in this order of strength, and the first two authoritative |
| MediaIdentity.BindingMovesOnlyWhenWeak | api/app/db/repositories/media_identity.py:298-347 | A binding moves exactly when it is not authoritative; conflict exactly when both sides are; the flag is never lost |
| MediaIdentity.BindingPriorityDrops | api/app/db/repositories/media_identity.py:330-347 | For every binding, of the same or another item: its priority drops exactly when the write has less and the binding is not authoritative, or both are and the item is the same |
| MediaIdentity.AuthoritativePriorityDrops | api/app/db/repositories/media_identity.py:343-347 | For an authoritative binding exactly when a search-confirmed write meets a manual binding of the same item |
| MediaIdentity.MigratedBindingFalls | api/app/db/repositories/media_identity.py:336-347 | A fallback write for the same item, or for another, takes a migrated binding down to the lowest priority |
| MediaIdentity.ManualBindingFalls | api/app/db/repositories/media_identity.py:343-347 | A search-confirmed write takes a manual binding of the same item down |
| MediaIdentity.RunKeepsAuthority | api/app/db/repositories/media_identity.py:298-347 | Over every sequence of operations an authoritative binding stays authoritative for its key and changes owner only when that owner is gone |
| MediaIdentity.OwnerGoesOnlyInMerge | api/app/db/repositories/media_identity.py:425-454 | The owner of a binding goes only in a merge, which makes the binding manual and the survivor its owner |
| MediaIdentity.WithoutOrphansKeepsInv | api/app/db/repositories/media_identity.py:290-296 | Deleting orphans breaks no rule and touches no entry or binding |
| MediaIdentityTables.MediaIdentityRepository.EnsureMedia | api/app/db/repositories/media_identity.py:142-206 | Looks up, strengthens or inserts as specified, with the invariant kept |
| MediaIdentityTables.MediaIdentityRepository.BindSources | api/app/db/repositories/media_identity.py:208-241 | Binds by item and by hash as specified, with the invariant kept |
| MediaIdentityTables.MediaIdentityRepository.BindSourceKey | api/app/db/repositories/media_identity.py:298-347 | Inserts, moves, strengthens or refuses as specified; a conflict changes nothing |
| MediaIdentityTables.MediaIdentityRepository.SetManualTmdbIdentity | api/app/db/repositories/media_identity.py:243-288 | Merges where the identity belongs to another item, then makes it manual |
| MediaIdentityTables.MediaIdentityRepository.MergeMediaItems | api/app/db/repositories/media_identity.py:425-454 | Folds one item into the other with every rule kept |
| MediaIdentityTables.MediaIdentityRepository.DeleteOrphanedMedia | api/app/db/repositories/media_identity.py:290-296 | Deletes exactly the items that no entry or binding refers to, and counts them |
| IdentityInputs.MergeSourceBindings | api/app/sync/identity_inputs.py:158-180 | The loop over stored bindings computes the merged maps |
| IdentityInputs.MergeRecordMeaning | api/app/sync/identity_inputs.py:163-180 | One record gives all its keys the strongest of the stored and selected identities, ties to the stored one, others stay |
| IdentityInputs.MergedIsStrongest | api/app/sync/identity_inputs.py:158-180 | Every key ends at or above its initial identity and every stored record naming it |
| IdentityInputs.TiesGoToTheStored | api/app/sync/identity_inputs.py:207-216 | The last stored record on a key holds it unless something strictly stronger does |
| IdentityInputs.MergedIsKnown | api/app/sync/identity_inputs.py:158-180 | Merging invents no identity |
| IdentityInputs.AliasIdentities | api/app/sync/identity_inputs.py:182-204 | Exactly the aliases whose strongest bindings belong to one item are mapped, to its identity |
| IdentityInputs.AliasOrderIrrelevant | api/app/sync/identity_inputs.py:182-204 | The alias map does not depend on the order of the bindings |
| LibraryPage.SelectedIsSuffix | api/app/db/repositories/media_metadata.py:140-183 | The cursor condition selects exactly what follows the cursor's row in the order |
| LibraryPage.PageIsSlice | api/app/db/repositories/media_metadata.py:140-190 | A page is a slice of the sorted catalogue, and its cursor is for its last row exactly when more follows |
| LibraryPage.FollowingVisitsAll | api/app/db/repositories/media_metadata.py:103-190 | Following cursors visits exactly the ordered catalogue, each row once, for every limit, key and direction |
| LibraryPage.FollowingIsInOrder | api/app/db/repositories/media_metadata.py:156-183 | On the columns: the sort values rise or fall as asked, among equal ones the item ids rise, and among equal ids the categories |
| LibraryPage.FollowingShowsAll | api/app/db/repositories/media_metadata.py:427-460 | The pages together show the entries that the whole catalogue would |
| LibraryPage.RowIsShown | api/app/db/repositories/media_metadata.py:427-460 | Every row shows one entry at its place, with its own columns and the prefix of its first path, or none exactly when that has no prefix |
| LibraryPage.LibraryPageEntries | api/app/db/repositories/media_metadata.py:427-460 | The loop keeps the page's rows that have a prefix, and a cursor exactly when one more row was fetched |
| LibraryPage.CursorRoundTrip | api/app/db/repositories/media_metadata.py:411-525 | A cursor is read back unchanged under the same filters and sort and refused under any other |
| LibraryPage.ReadCursorFits | api/app/db/repositories/media_metadata.py:463-525 | Only a cursor of this version, for a possible item and category, and for these filters and this sort, is read at all |
| Base64Text.UnpaddedRoundTrip | api/app/db/repositories/media_metadata.py:424-470 | The unpadded text decodes to exactly the bytes that were encoded |
| Base64Text.LoneCharacterIsRefused | api/app/db/repositories/media_metadata.py:463-473 | A text with one character over is refused |
| Base64Text.GroupKeepsNumber | api/app/db/repositories/media_metadata.py:411-460 | Three bytes and their four sextets are the same number, most significant first |
| Base64Text.FoobarExample | api/app/db/repositories/media_metadata.py:411-460 | The example "foobar" of section 10 of RFC 4648 |
| Base64Text.UrlSafeExample | api/app/db/repositories/media_metadata.py:411-460 | The two characters in which the URL-safe alphabet differs |
| SqlLike.EscapedMatchesItself | api/app/db/repositories/media_metadata.py:380-385 | An escaped value matches itself and nothing else, whatever pattern follows |
| SqlLike.PrefixPattern | api/app/db/repositories/media_metadata.py:372-377 | The prefix pattern matches exactly the strings that continue the prefix with a slash |
| SqlLike.SearchPattern | api/app/db/repositories/media_metadata.py:388-408 | The search pattern matches exactly the strings that contain the query |
| SqlLike.PrefixTestsAgree | api/app/db/repositories/library_exclusion.py:50-65 | The SQL prefix filter and the test of the sync select the same paths |
| SqlLike.EscapesMatter | api/app/db/repositories/media_metadata.py:380-385 | Without escaping the filter would select more |
| LibraryPaths.CleanedIsTidy | api/app/library/paths.py:12-20 | A cleaned segment has no separator, reserved character, dot pair or outer dot or space, and is not empty |
| LibraryPaths.CleaningIsIdempotent | api/app/library/paths.py:12-20 | Cleaning twice is cleaning once |
| PathNames.CleaningKeepsLetters | api/app/library/paths.py:12-20 | Cleaning keeps every letter of a title in order; only a title without any gives way to the fallback |
| PathNames.FilmPath | api/app/library/paths.py:23-44 | Letter by letter: a film, or an anime without numbers, in a folder of its own name and year |
| PathNames.EpisodePath | api/app/library/paths.py:30-58 | Letter by letter: an episode in the folder of its season, under both numbers in two digits or more |
| LibraryPaths.SuffixRoundTrip | api/app/library/paths.py:34-35 | Season and episode are read back from the printed suffix, whatever their size |
| LibraryPaths.SuffixIsInjective | api/app/library/paths.py:34-35 | Distinct numbers print differently |
| LibraryPaths.CanonicalSeriesAccepted | api/app/library/validation.py:126-168 | A printed series path passes the validator exactly for seasons to 99 and episodes to 999, or when the title itself holds a token |
| LibraryPaths.FilmAccepted | api/app/library/validation.py:126-141 | A printed film path passes the validator |
| LibraryPaths.ShapeMeaning | api/app/library/validation.py:126-168 | The validator accepts exactly films of three parts and series of four with a two-digit season folder and a season and episode in the name, an anime as either, and names the first thing wrong |
| LibraryPaths.TokenMeaning | api/app/library/validation.py:11 | A season and episode are `S`, two digits, `E` and two or three digits, in either case, apart from other words |
| LibraryPaths.AlternateAccepted | api/app/library/version_paths.py:26-44 | Another version lies beside the canonical path under another name and passes whenever that does |
| LibraryPaths.StemMeaning | api/app/library/version_paths.py:36 | The stem of a name is what comes before its last dot, if something comes before and behind it, and else the name |
| TorBoxFiles.WhenContested | api/app/providers/torbox/files.py:175-180 | A group is contested exactly when it has at least two files and one of known size |
| TorBoxFiles.ContestedGroupKeepsOne | api/app/providers/torbox/files.py:166-201 | A group of two or more with a known size keeps exactly one file, the first of maximal known size; all other files are kept |
| TorBoxFiles.SelectBlurayFeatureFiles | api/app/providers/torbox/files.py:166-201 | The loops keep exactly those files in order and count all others |
| TorBoxFiles.ExtractTorBoxFiles | api/app/providers/torbox/files.py:64-94 | Everything listed is kept or skipped exactly once, in order |
| TorBoxFiles.ExtractedMeaning | api/app/providers/torbox/files.py:64-94 | What is extracted is what some listed item, not known to be uncached, lists, is read as a file and is not dropped for the feature of its disc |

## Left out

- The HTTP clients, the routes, the web front end, authentication, logging, metrics, posters and health checks: I/O, or only easy properties.  Posters are cached after the commit, and an error there is not modelled.
- Release-name parsing, title matching, scoring, SHA-256, JSON and Unicode case folding: function parameters; only what a `requires` names is assumed of them.
- SQLAlchemy sessions and migrations: a working copy beside a committed one.  Commits of reads and of settings in between change nothing here.
- Advisory locks and concurrent transactions: operations are sequential steps; `SyncAlreadyRunningError` appears only in `Scheduler`, as a call that is turned away.
- Process crashes, torn writes and failures while a rollback itself restores files: an effect happens or raises.
- Directories, symbolic links and empty-parent cleanup: the file map has paths only, and a file is a path with nothing below it.
- Files that are not valid text: contents are texts, and a file that cannot be read cannot be read during the whole run.
- The tables `torbox_items` and `torbox_files`, sync runs, watchlist and stream selections: persisted beside the rows modelled here, and read by nothing that is.
- SyncStateTables.SyncLibraryStateRepository.PersistResult: the media item of each entry is a parameter of the class, and a conflict of identities counts as a failing effect; `StoredIdentities` gives the items that the store finds, and what else persisting does to it.
- Entries with some but not all source columns, as old migrations may leave them: an entry has a whole source file or none.
- StrmSync.TorBoxStrmSync.Run: `list_downloads` and `extract_torbox_files` enter as one batch per kind; `TorBoxFiles` models the extraction, and `SyncRuns.ListedIsSyncedOrSkipped` joins the two.
- Runs without a mutation tracker: both services pass one, and a run without one writes the same files.
- The resolution of `..` in a prefix: the request check refuses it first.
- LibraryService.Service.RemoveLibraryMedia: the prefix is given, from a request or from a media item; the deletion at the provider is one effect that may raise after the commit; stream selections are not modelled.
- Exclusions that a user lifts, or that selecting a stream lifts (`api/app/db/repositories/library_exclusion.py:42-48`): every exclusion here ends with a full sync.
- LibraryService.Service.ExecuteSync: adding selected streams to TorBox before a run is one effect, and the rows it writes are not modelled.
- The scheduler's shutdown: the model's event only ends the accepting of requests.  That a shutdown also empties the in-memory job store and cancels a running worker, so that what is queued is lost, is not modelled (`api/app/sync/scheduler.py:73-75`).
- SecondSync.SecondSyncChangesNothing: that what the first sync skipped is skipped again is assumed, since an answer of the provider may differ.
- SteadySync.SteadySecondSync: speaks of torrents only, as other downloads are not selected again; that what was skipped is skipped again, and that no item's row has become excluded, is assumed.
- Filling in missing metadata of the selected identities before a run (`api/app/sync/identity_inputs.py:91-116`): no sync turns it on.
- Scheduler.NoRequestIsLost: a runner call that returns after an error of its own counts as having run, as the worker treats it; an exception from building settings or a session ends the worker and is not modelled.
- RateLimiter.TorBoxRequestCoordinator.Acquire: sleeps that overrun and callers that contend are not modelled; the window property holds for every caller.
- LibraryPaths.CanonicalSeriesAccepted: the validator's digit and word classes are the ASCII ones; regular expressions on Unicode text accept more.
- LibraryPage.FollowingVisitsAll: strings are ordered by code points, where the database uses its collation.
- The error that a database raises for a pattern ending in an escape: escaped patterns never do.
- Floating-point rounding of clock values.
- `AioStreamsResultCache`: the same shape as the two caches modelled.
- The filters of `library_page` before grouping, and the counts beside it: a fixed catalogue is given.
