/** What becomes of a file that a full sync skips: it is deleted, unless its hash is selected and nothing synced carries it. */
module SkippedFiles {
  import opened Common
  import opened IdentityInputs
  import opened LibraryAgreement
  import opened LibraryFiles
  import opened LibraryPaths
  import LibraryRemoval
  import opened OneFilm
  import opened StrmSync
  import opened SyncDecisions
  import opened SyncOwnership
  import opened SyncRuns
  import opened SyncState
  import opened TorBoxFiles

  // ---------- Ids ----------

  type Ids = SourceFileKey -> string

  /** Every entry with a file is stored under the id of that file. */
  ghost predicate OwnIds(ids: Ids, entries: map<Id, EntryRow>) {
    forall i :: i in entries && entries[i].file.Some? ==> entries[i].opaqueId == ids(Key(entries[i].file.value))
  }

  lemma {:induction false} PersistKeepsOwnIds(db: Db, synced: seq<Synced>, owners: Synced -> Id, env: Env)
    requires OwnIds(env.entryId, db.entries) && forall x :: x in synced ==> RowOk(env, x)
    ensures var r := PersistedFiles(db, synced, owners);
            r.Ok? ==> OwnIds(env.entryId, r.value.entries)
  {
    hide Faithful, Found, Fits, GeneratedPath;
    if synced != [] {
      assert forall x :: x in Front(synced) ==> x in synced;
      PersistKeepsOwnIds(db, Front(synced), owners, env);
      assert Last(synced) in synced;
    }
  }

  lemma SyncKeepsOwnIds(
    h: Hash, s: System, env: Env, format: ManifestFormat, batches: seq<Batch>, partial: bool, owners: Synced -> Id,
    retained: set<string>)
    requires UniquePaths(env.reusable) && RowsOk(env) && env.contentHash == h && OwnIds(env.entryId, s.db.entries)
    ensures var r := SyncApplied(s, env, format, batches, partial, owners, retained);
            r.Ok? ==> OwnIds(env.entryId, r.value.db.entries)
  {
    hide RunOutcome, UniquePaths, RowsOk, OwnIds, WithoutStale, StalePaths, PersistedFiles, RowOk, LastPrinted,
      PrintedPaths, Disk, HasLookupFailure, Hashed;
    var run := RunOutcome(env, format, None, partial, s.files, batches);
    if run.Ok? {
      RunOutcomeDid(h, env, format, partial, s.files, batches);
      PersistKeepsOwnIds(s.db, run.value.0.synced, owners, env);
    }
  }

  /** Over every sequence of operations whose syncs share the ids, entries stay under the ids of their files. */
  lemma {:induction false} RunKeepsOwnIds(h: Hash, ids: Ids, states: seq<System>, ops: seq<Operation>, n: nat)
    requires IsRun(h, states, ops) && Agreement(h, states[0]) && OwnIds(ids, states[0].db.entries) && n < |states|
    requires forall op :: op in ops && op.Removal? ==> LibraryRemoval.Normal(op.prefix)
    requires forall op :: op in ops && op.Sync? ==> op.env.entryId == ids
    ensures OwnIds(ids, states[n].db.entries)
  {
    hide Agreement, LibraryRemoval.Normal, OwnIds, SyncApplied, IsReusable, UniquePaths, RemovalApplied;
    if n > 0 {
      RunKeepsOwnIds(h, ids, states, ops, n - 1);
      RunKeepsAgreement(h, states, ops, n - 1);
      var s, op := states[n - 1], ops[n - 1];
      assert Step(h, s, op, states[n]) && op in ops;
      match op {
        case Sync(env, format, batches, partial, owners, retained, view) =>
          assert DbOk(s.db) by { AgreementHasDb(h, s); }
          ReusableRows(s.db, view, env);
          SyncKeepsOwnIds(h, s, env, format, batches, partial, owners, retained);
        case Undone =>
        case Removal(prefix) =>
          RemovalLeavesEntries(s, prefix, states[n]);
      }
    }
  }

  // ---------- The entry of a skipped source ----------

  ghost predicate Carried(hash: Option<string>, synced: seq<Synced>) {
    hash.Some? && hash.value in HashesOf(synced)
  }

  /** The entry is as it was, or a synced file with its hash has taken it over. */
  ghost predicate KeptOrTaken(was: EntryRow, now: EntryRow, synced: seq<Synced>) {
    now == was || (Carried(was.infoHash, synced) && (now.infoHash.Some? ==> Carried(now.infoHash, synced)))
  }

  lemma HashesOfOneMore(synced: seq<Synced>, x: Synced)
    ensures HashesOf(synced) <= HashesOf(synced + [x])
    ensures x.infoHash.Some? ==> x.infoHash.value in HashesOf(synced + [x])
  {
    var more := synced + [x];
    assert forall y :: y in synced ==> y in more;
    assert x in more;
  }

  lemma StepKeepsOrTakes(db: Db, before: seq<Synced>, x: Synced, media: Id, e: Id, was: EntryRow)
    requires e in db.entries && e < db.nextId && KeptOrTaken(was, db.entries[e], before) && was.opaqueId != x.entryId
    requires db.entries[e] != was ==> db.entries[e].opaqueId != x.entryId || Carried(was.infoHash, before)
    ensures var r := PersistedFile(db, x, media);
            r.Ok? ==> e in r.value.entries && e < r.value.nextId && KeptOrTaken(was, r.value.entries[e], before + [x])
  {
    HashesOfOneMore(before, x);
    FoundMatches(db.entries, Rules, x);
    hide FoundBy, Fits, HashesOf;
  }

  lemma {:induction false} PersistKeepsOrTakes(db: Db, synced: seq<Synced>, owners: Synced -> Id, e: Id)
    requires DbOk(db) && e in db.entries && forall x :: x in synced && !x.reused ==> x.entryId != db.entries[e].opaqueId
    ensures var r := PersistedFiles(db, synced, owners);
            r.Ok? ==> e in r.value.entries && e < r.value.nextId && KeptOrTaken(db.entries[e], r.value.entries[e], synced)
  {
    hide PersistedFile, KeptOrTaken;
    if synced == [] {
      assert KeptOrTaken(db.entries[e], db.entries[e], synced) by { NothingTaken(db.entries[e]); }
    } else {
      assert forall x :: x in Front(synced) ==> x in synced;
      PersistKeepsOrTakes(db, Front(synced), owners, e);
      var before, x := PersistedFiles(db, Front(synced), owners), Last(synced);
      assert synced == Front(synced) + [x] && x in synced;
      if before.Ok? {
        TakenIsCarried(db.entries[e], before.value.entries[e], Front(synced));
        if x.reused {
          MoreCarried(db.entries[e], before.value.entries[e], Front(synced), x);
        } else {
          StepKeepsOrTakes(before.value, Front(synced), x, owners(x), e, db.entries[e]);
        }
      }
    }
  }

  lemma NothingTaken(was: EntryRow)
    ensures KeptOrTaken(was, was, [])
  {
  }

  lemma TakenIsCarried(was: EntryRow, now: EntryRow, synced: seq<Synced>)
    requires KeptOrTaken(was, now, synced)
    ensures now != was ==> Carried(was.infoHash, synced)
  {
  }

  lemma MoreCarried(was: EntryRow, now: EntryRow, synced: seq<Synced>, x: Synced)
    requires KeptOrTaken(was, now, synced)
    ensures KeptOrTaken(was, now, synced + [x])
  {
    HashesOfOneMore(synced, x);
    hide HashesOf;
  }

  // ---------- Survival ----------

  /** The path of a reusable source that is not synced is not synced either. */
  lemma SkippedPathIsNotSynced(env: Env, p: Progress, k: SourceFileKey)
    requires RunInv(env, p) && k in env.reusable && forall x :: x in p.tally.synced ==> Key(x.file) != k
    ensures env.reusable[k].path !in PathsOf(p.tally.synced)
    ensures forall x :: x in p.tally.synced ==> x.entryId == env.entryId(Key(x.file))
  {
    hide Content, PlaybackUrl, Backed, Manifested;
    forall x | x in p.tally.synced
      ensures x.path != env.reusable[k].path && x.entryId == env.entryId(Key(x.file))
    {
      assert Plays(env, p.files, p.claimed, x);
    }
  }

  /** What persisting leaves of a row whose path was not synced. */
  lemma UnsyncedRowSurvives(
    db: Db, result: SyncResult, owners: Synced -> Id, retained: set<string>, p: Path)
    requires DbOk(db) && PathsGenerated(result.synced) && !result.partial && p in db.generated && p !in PathsOf(result.synced)
    requires forall x :: x in result.synced && !x.reused ==> x.entryId != db.entries[db.generated[p].entry].opaqueId
    requires Persisted(db, result, owners, retained).Ok?
    ensures var hash := db.entries[db.generated[p].entry].infoHash;
            p in Persisted(db, result, owners, retained).value.0.generated <==>
            hash.Some? && hash.value in retained && hash.value !in HashesOf(result.synced)
  {
    hide PersistedFiles, DbOk, PathsGenerated, PathsOf, PrintedPaths, LastPrinted, HashesOf, KeptOrTaken;
    var synced := result.synced;
    assert db.generated[p].entry in db.entries by { RowHasEntry(db, p); }
    var after := PersistedFiles(db, synced, owners).value;
    PersistedFilesKeepDb(db, synced, owners);
    PersistFollows(db, synced, owners);
    PersistKeepsOrTakes(db, synced, owners, db.generated[p].entry);
    UnsyncedIsUnprinted(synced, p);
    assert after.generated[p] == db.generated[p];
    RetainedIff(db.entries[db.generated[p].entry], after.entries[db.generated[p].entry], synced, retained);
  }

  lemma RowHasEntry(db: Db, p: Path)
    requires DbOk(db) && p in db.generated
    ensures db.generated[p].entry in db.entries && GeneratedPath(p)
  {
  }

  lemma UnsyncedIsUnprinted(synced: seq<Synced>, p: Path)
    requires p !in PathsOf(synced)
    ensures LastPrinted(synced, p).None?
  {
    LastPrintedIsPrinted(synced, p);
    hide LastPrinted;
  }

  lemma RetainedIff(was: EntryRow, now: EntryRow, synced: seq<Synced>, retained: set<string>)
    requires KeptOrTaken(was, now, synced)
    ensures now.infoHash.Some? && now.infoHash.value in retained - HashesOf(synced) <==>
            was.infoHash.Some? && was.infoHash.value in retained && was.infoHash.value !in HashesOf(synced)
  {
    hide HashesOf;
  }

  /** For every full sync without a clash: a reusable source that is not synced, whether it is no longer listed or was
      skipped for a failed lookup or an exclusion, keeps its row and its file exactly when its hash is selected and no
      synced file carries it. */
  lemma SkippedSourceSurvives(
    h: Hash, s: System, env: Env, format: ManifestFormat, batches: seq<Batch>, owners: Synced -> Id,
    retained: set<string>, view: Id -> MediaView, s': System, k: SourceFileKey)
    requires Agreement(h, s) && Step(h, s, Sync(env, format, batches, false, owners, retained, view), s')
    requires ClashFree(env, None, Running(Start(env, s.files)), batches)
    requires InjectiveIds(env) && OwnIds(env.entryId, s.db.entries)
    requires k in env.reusable
    requires forall x :: x in RunOutcome(env, format, None, false, s.files, batches).value.0.synced ==> Key(x.file) != k
    ensures var p, hash := env.reusable[k].path, env.reusable[k].infoHash;
            var synced := RunOutcome(env, format, None, false, s.files, batches).value.0.synced;
            var survives := hash.Some? && hash.value in retained && hash.value !in HashesOf(synced);
            && p in s.db.generated && p in s.files
            && (p in s'.db.generated <==> survives)
            && (p in s'.files <==> survives)
  {
    hide Agreement, ClashFree, InjectiveIds, OwnIds, UniquePaths, RowsOk, RunBatches, Persisted, GeneratedPath, HashesOf, PathsOf,
      Hashed, WithoutStale, Disk, RunInv, Merged, IsReusable, DbOk, HasLookupFailure;
    var op := Sync(env, format, batches, false, owners, retained, view);
    var row := env.reusable[k];
    StepKeepsAgreement(h, s, op, s');
    AgreementHasDb(h, s);
    ReusableRows(s.db, view, env);
    OfferedEntry(s.db, view, env, k);
    OnDiskIffRow(h, s, row.path);
    OnDiskIffRow(h, s', row.path);
    var run := RunBatches(env, None, Running(Start(env, s.files)), batches);
    RunKeepsRunInv(env, s.files, None, batches);
    var result := RunOutcome(env, format, None, false, s.files, batches).value.0;
    NoLimitNoStop(env, Running(Start(env, s.files)), batches);
    assert result.synced == run.p.tally.synced && !result.partial;
    SkippedPathIsNotSynced(env, run.p, k);
    OthersHaveOtherIds(env, s.db.entries[s.db.generated[row.path].entry], result.synced, k, s.db.entries);
    RunOutcomeDid(h, env, format, false, s.files, batches);
    PrintedAreGenerated(env, result.synced);
    UnsyncedRowSurvives(s.db, result, owners, retained, row.path);
  }

  lemma OfferedEntry(db: Db, view: Id -> MediaView, env: Env, k: SourceFileKey)
    requires IsReusable(db, view, env.reusable) && k in env.reusable
    ensures var p := env.reusable[k].path;
            && HasSource(db, p) && env.reusable[k].infoHash == db.entries[db.generated[p].entry].infoHash
            && Key(db.entries[db.generated[p].entry].file.value) == k
  {
  }

  lemma OnDiskIffRow(h: Hash, s: System, p: Path)
    requires Agreement(h, s) && GeneratedPath(p)
    ensures p in s.db.generated <==> p in s.files
  {
    hide GeneratedPath, DbOk, Hashed;
  }

  lemma OthersHaveOtherIds(env: Env, entry: EntryRow, synced: seq<Synced>, k: SourceFileKey, entries: map<Id, EntryRow>)
    requires InjectiveIds(env) && OwnIds(env.entryId, entries) && entry in entries.Values
    requires entry.file.Some? && Key(entry.file.value) == k
    requires forall x :: x in synced ==> Key(x.file) != k && x.entryId == env.entryId(Key(x.file))
    ensures forall x :: x in synced ==> x.entryId != entry.opaqueId
  {
    var i :| i in entries && entries[i] == entry;
    assert entry.opaqueId == env.entryId(k);
  }

  // ---------- A failed lookup ----------

  const FILM_VIEW := (id: Id) => MediaView("X", None, None, None)

  /** The provider fails, and the fingerprint is no longer that of the row: since the overrides were changed, say. */
  function FailingEnv(h: Hash): Env {
    FilmEnv(h, None, map[], Some(Provider((title, year, category) => Resolution(UNMATCHED, ProviderError), None)), None, map[],
            FilmRow(h, None, "old"))
  }

  const FILM_BATCH := Batch("torrents", [FILE], 0, map[])

  lemma StoredFilmIsOffered(h: Hash)
    ensures IsReusable(StoredFilm(h).db, FILM_VIEW, FailingEnv(h).reusable)
  {
    var s := StoredFilm(h);
    assert HasSource(s.db, FILM) && RowOf(s.db, FILM, FILM_VIEW) == FilmRow(h, None, "old");
  }

  lemma LookupFails(h: Hash)
    ensures FreshDecision(FailingEnv(h), FILE, None) == Skip({LookupFailed("X")}, {})
  {
    var env := FailingEnv(h);
    var parsed := ParsedEntry(env, FILE);
    assert parsed == Entry(Movies, "X", None, None, None, "u");
    FilmEntryIsValid(Movies, None);
    assert KnownIdentity(env, parsed, None).None?;
    hide ValidEntry, KnownIdentity, ParsedEntry;
    assert WithOverride(env, WithAnime(env, parsed)) == parsed;
    assert EntryWithIdentity(parsed, UNMATCHED) == parsed;
  }

  lemma FilmIsSkipped(h: Hash)
    ensures Decide(FailingEnv(h), DISK, FILE, map[]) == Skip({LookupFailed("X")}, {})
  {
    LookupFails(h);
    assert !Reuses(FailingEnv(h), DISK, FILE, map[]);
    hide FreshDecision, Reuses;
  }

  /** A batch of one file that is skipped. */
  lemma RunOfOneSkip(env: Env, format: ManifestFormat, files: Files, f: TorBoxFile, d: Diagnostic)
    requires UniquePaths(env.reusable) && env.resolverUrl.None? && Decide(env, files, f, map[]) == Skip({d}, {})
    ensures RunOutcome(env, format, None, false, files, [Batch("torrents", [f], 0, map[])]) ==
            Ok((SyncResult(1, 0, 1, [], false, false, {d}, {}, 0), files))
  {
    hide Decide, InitialClaims, UniquePaths, Merged, TargetPath, SyncedFile;
    var b := Batch("torrents", [f], 0, map[]);
    var start := Running(Start(env, files));
    var listed := Running(WithListing(b, start.p));
    var r := Running(Progress(files, InitialClaims(env.reusable), Tally(1, 1, 0, [], [], {d}, {})));
    assert RunFile(env, None, b, listed, f) == r by {
      assert Discovered(b) == map[];
    }
    OneFileRun(env, b, listed, f);
    OneBatchRun(env, b, start);
    hide RunFile, RunFiles, RunBatches;
    assert PathsOf([]) == {};
  }

  lemma OneFileRun(env: Env, b: Batch, r: Run, f: TorBoxFile)
    ensures RunFiles(env, None, b, r, [f]) == RunFile(env, None, b, r, f)
  {
    hide RunFile;
    assert Front([f]) == [] && Last([f]) == f;
  }

  lemma OneBatchRun(env: Env, b: Batch, r: Run)
    ensures RunBatches(env, None, r, [b]) == RunBatch(env, None, r, b)
  {
    hide RunBatch;
    assert Front([b]) == [] && Last([b]) == b;
  }

  lemma FilmGoesStale(h: Hash, result: SyncResult, owners: Synced -> Id)
    requires result.synced == [] && !result.partial
    ensures var db := StoredFilm(h).db;
            Persisted(db, result, owners, {}) == Ok((db.(generated := map[]), {FILM}))
  {
    var db := StoredFilm(h).db;
    assert PathsOf([]) == {};
    assert StalePaths(db, [], {}) == {FILM};
    assert db.generated - {FILM} == map[];
  }

  lemma AppliedFrom(
    s: System, env: Env, format: ManifestFormat, batches: seq<Batch>, owners: Synced -> Id, retained: set<string>,
    result: SyncResult, files: Files, db: Db, stale: set<Path>)
    requires UniquePaths(env.reusable)
    requires RunOutcome(env, format, None, false, s.files, batches) == Ok((result, files))
    requires Persisted(s.db, result, owners, retained) == Ok((db, stale))
    ensures SyncApplied(s, env, format, batches, false, owners, retained) ==
            Ok(System(WithoutStale(files, stale), Reconciled(db, result)))
  {
    hide RunOutcome, Persisted, WithoutStale, Reconciled, UniquePaths;
  }

  lemma FilmDeleted(h: Hash, result: SyncResult)
    requires result.diagnostics == {LookupFailed("X")}
    ensures WithoutStale(DISK, {FILM}) == map[]
    ensures Reconciled(StoredFilm(h).db.(generated := map[]), result) == StoredFilm(h).db.(generated := map[])
  {
    assert HasStrmSuffix(FILM);
    assert LookupFailed("X") in result.diagnostics;
  }

  lemma FilmIsUnique(h: Hash)
    ensures var env := FailingEnv(h);
            UniquePaths(env.reusable) && env.resolverUrl.None? && env.contentHash == h && env.excluded == {}
  {
  }

  /** The message says that existing library state was preserved.  In a library of one film whose lookup fails, the
      full sync completes, and both the row and the file are gone. */
  lemma FailedLookupDeletesFilm(h: Hash, format: ManifestFormat, owners: Synced -> Id)
    ensures var s, env := StoredFilm(h), FailingEnv(h);
            var s' := System(map[], s.db.(generated := map[]));
            && Agreement(h, s) && FILM in s.db.generated && FILM in s.files
            && Step(h, s, Sync(env, format, [FILM_BATCH], false, owners, {}, FILM_VIEW), s')
  {
    var s, env := StoredFilm(h), FailingEnv(h);
    StoredFilmAgrees(h);
    StoredFilmIsOffered(h);
    FilmIsUnique(h);
    FilmIsSkipped(h);
    hide Agreement, IsReusable, UniquePaths, FailingEnv, Decide, RunOutcome, Persisted, SyncApplied, WithoutStale, Reconciled;
    RunOfOneSkip(env, format, DISK, FILE, LookupFailed("X"));
    var result := SyncResult(1, 0, 1, [], false, false, {LookupFailed("X")}, {}, 0);
    FilmGoesStale(h, result, owners);
    FilmDeleted(h, result);
    AppliedFrom(s, env, format, [FILM_BATCH], owners, {}, result, DISK, s.db.(generated := map[]), {FILM});
  }
}
