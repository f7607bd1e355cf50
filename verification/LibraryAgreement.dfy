/** The database and the disk say the same of the library, over every sequence of operations. */
module LibraryAgreement {
  import opened Common
  import opened LibraryFiles
  import opened LibraryPaths
  import opened LibraryRemoval
  import opened OneFilm
  import opened SqlLike
  import opened StrmSync
  import opened SyncDecisions
  import opened SyncRuns
  import opened SyncState
  import opened TorBoxFiles

  // ---------- The invariant ----------

  /** The committed tables and the files. */
  datatype System = System(files: Files, db: Db)

  /** The playback files below the category folders. */
  function Disk(files: Files): set<Path> {
    set p | p in files && GeneratedPath(p)
  }

  type Hash = string -> string

  /** The file holds one line, and `hash` is the hash of it. */
  predicate Hashed(content: string, hash: string, h: Hash) {
    content != "" && content == Content(Front(content)) && hash == h(Front(content))
  }

  /** There is a row for every playback file on disk and for no other path, and it carries the hash of what
      the file plays. */
  ghost predicate Agreement(h: Hash, s: System) {
    && DbOk(s.db)
    && s.db.generated.Keys == Disk(s.files)
    && forall p :: p in s.db.generated ==> Hashed(s.files[p], s.db.generated[p].contentHash, h)
  }

  // ---------- The last word on a path ----------

  /** The last printed file of a path. */
  function LastPrinted(synced: seq<Synced>, p: Path): Option<Synced> {
    if synced == [] then None
    else if !Last(synced).reused && Last(synced).path == p then Some(Last(synced))
    else LastPrinted(Front(synced), p)
  }

  lemma {:induction false} LastPrintedIsPrinted(synced: seq<Synced>, p: Path)
    ensures LastPrinted(synced, p).Some? <==> p in PrintedPaths(synced)
    ensures LastPrinted(synced, p).Some? ==> LastPrinted(synced, p).value in synced
  {
    hide PrintedPaths;
    if synced == [] {
      NothingPrinted();
    } else {
      LastPrintedIsPrinted(Front(synced), p);
      assert synced == Front(synced) + [Last(synced)];
      PathsOfOneMore(Front(synced), Last(synced));
    }
  }

  /** On disk the last printed file of a path has the say, and elsewhere nothing has changed. */
  ghost predicate DiskFollows(h: Hash, initial: Files, p: Progress) {
    forall q ::
      match LastPrinted(p.tally.synced, q)
      case None => Lookup(p.files, q) == Lookup(initial, q)
      case Some(s) => q in p.files && Hashed(p.files[q], s.contentHash, h)
  }

  lemma PrintFollows(h: Hash, env: Env, p: Progress, q: Progress, f: TorBoxFile, s: Synced)
    requires Syncs(env, p, q, f, s) && env.contentHash == h && !s.reused
    ensures s.path in q.files && Hashed(q.files[s.path], s.contentHash, h)
  {
    hide RowOk, PlaybackUrl;
    assert Front(Content(PlaybackUrl(env, Key(f)))) == PlaybackUrl(env, Key(f));
  }

  lemma StepFollows(h: Hash, env: Env, initial: Files, discovered: map<string, string>, p: Progress, f: TorBoxFile)
    requires DiskFollows(h, initial, p) && RowsOk(env) && env.contentHash == h
    ensures var r := StepFile(env, discovered, p, f);
            r.Ok? ==> DiskFollows(h, initial, r.value)
  {
    hide StepFile, Decide, RowsOk, TargetPath, ValidEntry, Scanned, Hashed, Describes, RowOk, Content, PlaybackUrl;
    var step := StepShape(env, discovered, p, f);
    var r := StepFile(env, discovered, p, f);
    if r.Ok? && step.Some? {
      var s, q := step.value, r.value;
      if !s.reused {
        PrintFollows(h, env, p, q, f, s);
      }
      assert Front(q.tally.synced) == p.tally.synced;
    }
  }

  lemma {:induction false} FilesFollow(
    h: Hash, env: Env, initial: Files, b: Batch, p: Progress, files: seq<TorBoxFile>)
    requires DiskFollows(h, initial, p) && RowsOk(env) && env.contentHash == h
    ensures var r := RunFiles(env, None, b, Running(p), files);
            !r.Failed? ==> DiskFollows(h, initial, r.p)
    decreases |files|
  {
    hide DiskFollows, RowsOk, StepFile;
    if files != [] {
      FilesFollow(h, env, initial, b, p, Front(files));
      var r := RunFiles(env, None, b, Running(p), Front(files));
      if r.Running? {
        StepFollows(h, env, initial, Discovered(b), r.p, Last(files));
      }
    }
  }

  lemma ListingFollows(h: Hash, initial: Files, b: Batch, p: Progress)
    requires DiskFollows(h, initial, p)
    ensures DiskFollows(h, initial, WithListing(b, p))
  {
    hide Hashed;
  }

  lemma StartFollows(h: Hash, env: Env, files: Files)
    requires UniquePaths(env.reusable)
    ensures DiskFollows(h, files, Start(env, files))
  {
  }

  lemma {:induction false} RunFollows(h: Hash, env: Env, files: Files, batches: seq<Batch>)
    requires UniquePaths(env.reusable) && RowsOk(env) && env.contentHash == h
    ensures var r := RunBatches(env, None, Running(Start(env, files)), batches);
            !r.Failed? ==> DiskFollows(h, files, r.p)
    decreases |batches|
  {
    hide DiskFollows, RowsOk, RunFiles, UniquePaths;
    if batches == [] {
      StartFollows(h, env, files);
    } else {
      RunFollows(h, env, files, Front(batches));
      var r := RunBatches(env, None, Running(Start(env, files)), Front(batches));
      if r.Running? {
        var b := Last(batches);
        ListingFollows(h, files, b, r.p);
        FilesFollow(h, env, files, b, WithListing(b, r.p), b.files);
      }
    }
  }

  /** In the database too the last printed file of a path has the say. */
  ghost predicate RowsFollow(initial: Db, db: Db, synced: seq<Synced>) {
    forall q ::
      match LastPrinted(synced, q)
      case None => q in db.generated ==> q in initial.generated && db.generated[q] == initial.generated[q]
      case Some(s) => q in db.generated ==> db.generated[q].contentHash == s.contentHash
  }

  lemma {:induction false} PersistFollows(db: Db, synced: seq<Synced>, owners: Synced -> Id)
    ensures var r := PersistedFiles(db, synced, owners);
            r.Ok? ==> RowsFollow(db, r.value, synced)
  {
    hide Found, Fits, EntryRowOf;
    if synced != [] {
      PersistFollows(db, Front(synced), owners);
    }
  }

  // ---------- A sync ----------

  function HasLookupFailure(diagnostics: set<Diagnostic>): bool {
    exists d :: d in diagnostics && d.LookupFailed?
  }

  /** After a full sync without a failed lookup, exclusions that nothing matched are dropped. */
  function Reconciled(db: Db, result: SyncResult): Db {
    if result.partial || HasLookupFailure(result.diagnostics) then db
    else db.(exclusions := db.exclusions * result.observed)
  }

  /** A sync that completes: run, persist, drop exclusions, delete what is stale. */
  ghost function SyncApplied(
    s: System, env: Env, format: ManifestFormat, batches: seq<Batch>, partial: bool, owners: Synced -> Id,
    retained: set<string>): Result<System, Error>
    requires UniquePaths(env.reusable)
  {
    var run :- RunOutcome(env, format, None, partial, s.files, batches);
    var persisted :- Persisted(s.db, run.0, owners, retained);
    Ok(System(WithoutStale(run.1, persisted.1), Reconciled(persisted.0, run.0)))
  }

  /** What a completed run has done to the playback files, the manifest aside. */
  ghost predicate RunDid(h: Hash, env: Env, files: Files, result: SyncResult, after: Files) {
    && Disk(after) == Disk(files) + PrintedPaths(result.synced)
    && (forall x :: x in result.synced ==> RowOk(env, x))
    && forall q :: GeneratedPath(q) ==>
         match LastPrinted(result.synced, q)
         case None => Lookup(after, q) == Lookup(files, q)
         case Some(x) => q in after && Hashed(after[q], x.contentHash, h)
  }

  lemma PrintedAreGenerated(env: Env, synced: seq<Synced>)
    requires forall x :: x in synced ==> RowOk(env, x)
    ensures forall q :: q in PrintedPaths(synced) ==> GeneratedPath(q)
    ensures PathsGenerated(synced)
  {
    hide GeneratedPath, Faithful;
  }

  lemma GrownDid(h: Hash, env: Env, files: Files, p: Progress, result: SyncResult, after: Files)
    requires Grown(env, files, p) && DiskFollows(h, files, p) && result.synced == p.tally.synced
    requires forall q :: q != MANIFEST_PATH ==> Lookup(after, q) == Lookup(p.files, q)
    ensures RunDid(h, env, files, result, after)
  {
    hide RowOk, PathsOf, PrintedPaths, Hashed, LastPrinted;
    PrintedAreGenerated(env, p.tally.synced);
    assert !GeneratedPath(MANIFEST_PATH);
    hide GeneratedPath;
    assert forall q :: GeneratedPath(q) ==> Lookup(after, q) == Lookup(p.files, q);
    assert Disk(after) == Disk(p.files);
  }

  lemma RunOutcomeDid(h: Hash, env: Env, format: ManifestFormat, partial: bool, files: Files, batches: seq<Batch>)
    requires UniquePaths(env.reusable) && RowsOk(env) && env.contentHash == h
    ensures var r := RunOutcome(env, format, None, partial, files, batches);
            r.Ok? ==> RunDid(h, env, files, r.value.0, r.value.1)
  {
    hide RunBatches, Start, UniquePaths, RowsOk, Grown, DiskFollows, RunDid, Merged, PathsOf;
    var run := RunBatches(env, None, Running(Start(env, files)), batches);
    RunGrows(env, files, None, batches);
    RunFollows(h, env, files, batches);
    var r := RunOutcome(env, format, None, partial, files, batches);
    if r.Ok? {
      GrownDid(h, env, files, run.p, r.value.0, r.value.1);
    }
  }

  lemma StaleLeavesDisk(files: Files, stale: set<Path>)
    requires forall q :: q in stale ==> GeneratedPath(q)
    ensures Disk(WithoutStale(files, stale)) == Disk(files) - stale
    ensures forall q :: q !in stale ==> Lookup(WithoutStale(files, stale), q) == Lookup(files, q)
  {
    forall q | q in stale ensures HasStrmSuffix(q) {
      assert q[|q| - 5..] == ".strm";
    }
    hide GeneratedPath, HasStrmSuffix;
  }

  /** A sync that completes keeps database and disk in agreement, whatever the provider lists or answers and
      whichever paths it prints. */
  lemma SyncKeepsAgreement(
    h: Hash, s: System, env: Env, format: ManifestFormat, batches: seq<Batch>, partial: bool, owners: Synced -> Id,
    retained: set<string>)
    requires Agreement(h, s) && UniquePaths(env.reusable) && RowsOk(env) && env.contentHash == h
    ensures var r := SyncApplied(s, env, format, batches, partial, owners, retained);
            r.Ok? ==> Agreement(h, r.value)
  {
    hide RunOutcome, DbOk, UniquePaths, RowsOk, Persisted, GeneratedPath, Hashed, RowOk, WithoutStale, LastPrinted,
      PrintedPaths, PathsOf, Disk;
    var run := RunOutcome(env, format, None, partial, s.files, batches);
    if run.Ok? {
      RunOutcomeDid(h, env, format, partial, s.files, batches);
      var result, after := run.value.0, run.value.1;
      PrintedAreGenerated(env, result.synced);
      var persisted := Persisted(s.db, result, owners, retained);
      if persisted.Ok? {
        PersistKeepsDb(s.db, result, owners, retained);
        PersistedRowsFollow(s.db, result, owners, retained);
        AgreementAfter(h, s, env, result, after, persisted.value.0, persisted.value.1);
      }
    }
  }

  lemma PersistedRowsFollow(db: Db, result: SyncResult, owners: Synced -> Id, retained: set<string>)
    ensures var r := Persisted(db, result, owners, retained);
            r.Ok? ==> RowsFollow(db, r.value.0, result.synced)
  {
    hide PersistedFiles, StalePaths, LastPrinted;
    PersistFollows(db, result.synced, owners);
  }

  lemma AgreementAfter(h: Hash, s: System, env: Env, result: SyncResult, after: Files, db: Db, stale: set<Path>)
    requires Agreement(h, s) && RunDid(h, env, s.files, result, after)
    requires DbOk(db) && RowsFollow(s.db, db, result.synced)
    requires db.generated.Keys == s.db.generated.Keys + PrintedPaths(result.synced) - stale
    requires stale <= s.db.generated.Keys + PrintedPaths(result.synced)
    ensures Agreement(h, System(WithoutStale(after, stale), Reconciled(db, result)))
  {
    hide Hashed, RowOk, PrintedPaths, GeneratedPath, LastPrinted, WithoutStale, EntriesOk;
    PrintedAreGenerated(env, result.synced);
    StaleLeavesDisk(after, stale);
    var files := WithoutStale(after, stale);
    forall p | p in db.generated ensures p in files && Hashed(files[p], db.generated[p].contentHash, h) {
      assert GeneratedPath(p) && p in Disk(files);
      assert Lookup(files, p) == Lookup(after, p);
      if LastPrinted(result.synced, p).None? {
        assert Lookup(after, p) == Lookup(s.files, p);
      }
    }
  }

  lemma RunTouchesSnapshotted(env: Env, format: ManifestFormat, partial: bool, files: Files, batches: seq<Batch>, q: Path)
    requires UniquePaths(env.reusable) && RowsOk(env) && !Snapshotted(q)
    ensures var r := RunOutcome(env, format, None, partial, files, batches);
            r.Ok? ==> Lookup(r.value.1, q) == Lookup(files, q) && forall x :: x in r.value.0.synced ==> RowOk(env, x)
  {
    assert !GeneratedPath(q) && q != MANIFEST_PATH;
    hide RunBatches, Start, UniquePaths, RowsOk, Merged, PathsOf, GeneratedPath, Snapshotted, Grown, DiskFollows, RowOk;
    var run := RunBatches(env, None, Running(Start(env, files)), batches);
    RunGrows(env, files, None, batches);
    RunFollows(env.contentHash, env, files, batches);
    if !run.Failed? {
      UnprintedStays(env, files, run.p, q);
    }
  }

  lemma UnprintedStays(env: Env, files: Files, p: Progress, q: Path)
    requires Grown(env, files, p) && DiskFollows(env.contentHash, files, p) && !GeneratedPath(q)
    ensures Lookup(p.files, q) == Lookup(files, q) && forall x :: x in p.tally.synced ==> RowOk(env, x)
  {
    hide Hashed, LastPrinted, GeneratedPath, Faithful;
    LastPrintedIsPrinted(p.tally.synced, q);
  }

  /** A sync changes playback files and the manifest only, so that a full snapshot taken before would undo it. */
  lemma SnapshotUndoesSync(
    s: System, env: Env, format: ManifestFormat, batches: seq<Batch>, partial: bool, owners: Synced -> Id,
    retained: set<string>)
    requires DbOk(s.db) && UniquePaths(env.reusable) && RowsOk(env)
    ensures var r := SyncApplied(s, env, format, batches, partial, owners, retained);
            r.Ok? ==> SnapshotRestored(r.value.files, Snapshot(s.files)) == s.files
  {
    var r := SyncApplied(s, env, format, batches, partial, owners, retained);
    if r.Ok? {
      forall q | !Snapshotted(q) ensures Lookup(r.value.files, q) == Lookup(s.files, q) {
        SyncTouchesSnapshotted(s, env, format, batches, partial, owners, retained, q);
      }
      hide Snapshot, Snapshotted, SyncApplied;
      SnapshotRestores(s.files, r.value.files);
    }
  }

  lemma SyncTouchesSnapshotted(
    s: System, env: Env, format: ManifestFormat, batches: seq<Batch>, partial: bool, owners: Synced -> Id,
    retained: set<string>, q: Path)
    requires DbOk(s.db) && UniquePaths(env.reusable) && RowsOk(env) && !Snapshotted(q)
    ensures var r := SyncApplied(s, env, format, batches, partial, owners, retained);
            r.Ok? ==> Lookup(r.value.files, q) == Lookup(s.files, q)
  {
    hide RunOutcome, DbOk, UniquePaths, RowsOk, Persisted, RowOk, WithoutStale, PrintedPaths, PathsOf, Reconciled;
    RunTouchesSnapshotted(env, format, partial, s.files, batches, q);
    assert !GeneratedPath(q);
    hide Snapshotted, GeneratedPath;
    var run := RunOutcome(env, format, None, partial, s.files, batches);
    if run.Ok? && Persisted(s.db, run.value.0, owners, retained).Ok? {
      var result := run.value.0;
      PrintedAreGenerated(env, result.synced);
      PersistKeepsDb(s.db, result, owners, retained);
      var stale := Persisted(s.db, result, owners, retained).value.1;
      GeneratedRows(s.db);
      StaleLeavesDisk(run.value.1, stale);
    }
  }

  lemma GeneratedRows(db: Db)
    requires DbOk(db)
    ensures forall p :: p in db.generated ==> GeneratedPath(p)
  {
    hide GeneratedPath, EntriesOk;
  }

  // ---------- A removal ----------

  /** The rows that the filter on the prefix selects are gone, and the prefix is excluded from now on. */
  function WithoutPrefix(db: Db, prefix: string): Db {
    db.(generated := db.generated - (set p | p in db.generated && PathMatchesPrefix(prefix, p)),
        exclusions := db.exclusions + {prefix})
  }

  /** A removal that is committed.  What it staged is out of sight, deleted or still in quarantine. */
  ghost predicate RemovalApplied(s: System, prefix: string, s': System) {
    && s'.db == WithoutPrefix(s.db, prefix)
    && forall p: Path :: GeneratedPath(p) ==>
         Lookup(s'.files, p) == if p in StagedPaths(s.files, Target(prefix)) then None else Lookup(s.files, p)
  }

  lemma StagedOnDisk(files: Files, target: Path, p: Path)
    requires p in files && GeneratedPath(p)
    ensures p in StagedPaths(files, target) <==> Excludes(target, p)
  {
    hide Excludes, EndsWith;
    if IsFile(files, target) && !NamedStrm(target) && Excludes(target, p) {
      FileAlone(files, target, p);
    }
  }

  lemma FileAlone(files: Files, target: Path, p: Path)
    requires IsFile(files, target) && p in files && Excludes(target, p)
    ensures p == target
  {
  }

  lemma RemovalOfRow(s: System, prefix: string, s': System, p: Path)
    requires RemovalApplied(s, prefix, s') && GeneratedPath(p)
    ensures p in s'.db.generated <==> p in s.db.generated && !Excludes(prefix, p)
    ensures p in s'.db.generated ==> s'.db.generated[p] == s.db.generated[p]
    ensures p in Disk(s'.files) <==> p in Disk(s.files) && !Excludes(Target(prefix), p)
    ensures p in s'.files ==> p in s.files && s'.files[p] == s.files[p]
  {
    hide GeneratedPath, Excludes, PathMatchesPrefix, Target, StagedPaths;
    PrefixTestsAgree(prefix, p);
    if p in s.files {
      StagedOnDisk(s.files, Target(prefix), p);
    }
    assert Lookup(s'.files, p) == if p in StagedPaths(s.files, Target(prefix)) then None else Lookup(s.files, p);
  }

  /** Database and disk agree after a removal exactly when the filter on the prefix and the path that the
      prefix resolves to select the same playback files. */
  lemma RemovalAgreement(h: Hash, s: System, prefix: string, s': System)
    requires Agreement(h, s) && RemovalApplied(s, prefix, s')
    ensures Agreement(h, s') <==>
            forall p :: p in Disk(s.files) ==> (Excludes(prefix, p) <==> Excludes(Target(prefix), p))
  {
    hide GeneratedPath, Excludes, Target, RemovalApplied, Hashed, EntriesOk;
    assert s'.db.entries == s.db.entries && s'.db.nextId == s.db.nextId by {
      RemovalLeavesEntries(s, prefix, s');
    }
    RemovedRowsAreRows(s, prefix, s');
    forall p | GeneratedPath(p)
      ensures p in s'.db.generated <==> p in s.db.generated && !Excludes(prefix, p)
      ensures p in s'.db.generated ==> s'.db.generated[p] == s.db.generated[p]
      ensures p in Disk(s'.files) <==> p in Disk(s.files) && !Excludes(Target(prefix), p)
      ensures p in s'.files ==> p in s.files && s'.files[p] == s.files[p]
    {
      RemovalOfRow(s, prefix, s', p);
    }
    if forall p :: p in Disk(s.files) ==> (Excludes(prefix, p) <==> Excludes(Target(prefix), p)) {
      assert s'.db.generated.Keys == Disk(s'.files);
    }
  }

  lemma RemovalLeavesEntries(s: System, prefix: string, s': System)
    requires RemovalApplied(s, prefix, s')
    ensures s'.db.entries == s.db.entries && s'.db.nextId == s.db.nextId
  {
  }

  lemma RemovedRowsAreRows(s: System, prefix: string, s': System)
    requires RemovalApplied(s, prefix, s')
    ensures s'.db.generated.Keys <= s.db.generated.Keys
  {
    hide PathMatchesPrefix;
  }

  /** So a removal keeps the agreement exactly when its prefix is written as the path it resolves to, or no
      playback file lies below that path: a doubled or trailing slash or a dot removes the files but not the rows. */
  lemma RemovalAgreesIfNormal(h: Hash, s: System, prefix: string, s': System)
    requires Agreement(h, s) && RemovalApplied(s, prefix, s') && forall p :: p in Disk(s.files) ==> Normal(p)
    ensures Agreement(h, s') <==> Normal(prefix) || forall p :: p in Disk(s.files) ==> !Excludes(Target(prefix), p)
  {
    RemovalAgreement(h, s, prefix, s');
    if Normal(prefix) {
      NormalTarget(prefix);
    }
    forall p | p in Disk(s.files) && Excludes(prefix, p) ensures Normal(prefix) {
      NormalPrefix(prefix, p);
    }
    hide Agreement, RemovalApplied, Excludes, Target, Normal, Disk;
  }

  /** A library of one film, with its row under an older fingerprint. */
  function StoredFilm(h: Hash): System {
    System(DISK, Db(map[0 := EntryRow("id", 0, Some(FILE), None, Movies, None, None)],
                    map[FILM := GeneratedRow(0, h("u"), Some("old"))], {}, 1))
  }

  lemma StoredFilmAgrees(h: Hash)
    ensures Agreement(h, StoredFilm(h))
  {
    var s := StoredFilm(h);
    assert GeneratedPath(FILM);
    assert s.files[FILM] == Content("u") && Front("u\n") == "u";
    hide GeneratedPath;
    assert Disk(s.files) == {FILM};
  }

  /** The request to remove `movies/X/` is accepted, deletes the film on disk, and leaves its row. */
  lemma SlashedRemovalLeavesRow(h: Hash, s': System)
    requires RemovalApplied(StoredFilm(h), "movies/X/", s')
    ensures ValidPrefix("movies/X/", "movies") && Agreement(h, StoredFilm(h))
    ensures !Agreement(h, s') && FILM in s'.db.generated && FILM !in s'.files
  {
    var s := StoredFilm(h);
    StoredFilmAgrees(h);
    SlashedPrefix();
    hide Agreement, RemovalApplied, Excludes, Target, GeneratedPath;
    FilmIsBelow(FILM);
    RowIsGenerated(h, s, FILM);
    RemovalOfRow(s, "movies/X/", s', FILM);
    RowsAreOnDisk(h, s, s', FILM);
  }

  lemma RowIsGenerated(h: Hash, s: System, p: Path)
    requires Agreement(h, s) && p in s.db.generated
    ensures GeneratedPath(p) && p in Disk(s.files)
  {
  }

  lemma RowsAreOnDisk(h: Hash, s: System, s': System, p: Path)
    requires Agreement(h, s) && p in s.db.generated && p in s'.db.generated && p !in Disk(s'.files)
    ensures !Agreement(h, s') && p !in s'.files
  {
  }

  lemma FilmIsBelow(film: Path)
    requires film == "movies/X/X.strm"
    ensures Excludes("movies/X", film) && !Excludes("movies/X/", film)
  {
    var slashed := "movies/X/" + "/";
    assert slashed[9] == '/' && film[9] == 'X';
    assert "movies/X" + "/" <= film;
  }

  // ---------- All runs of operations ----------

  /** A sync, full or of one item, that completed; a sync or removal that failed and was undone; a committed removal. */
  datatype Operation =
    | Sync(env: Env, format: ManifestFormat, batches: seq<Batch>, partial: bool, owners: Synced -> Id,
           retained: set<string>, view: Id -> MediaView)
    | Undone
    | Removal(prefix: string)

  /** One operation from one committed state to the next.  A sync is offered the rows and exclusions it finds. */
  ghost predicate Step(h: Hash, s: System, op: Operation, s': System) {
    match op
    case Sync(env, format, batches, partial, owners, retained, view) =>
      && env.contentHash == h && IsReusable(s.db, view, env.reusable) && UniquePaths(env.reusable)
      && env.excluded == s.db.exclusions
      && SyncApplied(s, env, format, batches, partial, owners, retained) == Ok(s')
    case Undone => s' == s
    case Removal(prefix) => RemovalApplied(s, prefix, s')
  }

  ghost predicate IsRun(h: Hash, states: seq<System>, ops: seq<Operation>) {
    |states| == |ops| + 1 && forall i :: 0 <= i < |ops| ==> Step(h, states[i], ops[i], states[i + 1])
  }

  lemma StepKeepsAgreement(h: Hash, s: System, op: Operation, s': System)
    requires Agreement(h, s) && Step(h, s, op, s') && (op.Removal? ==> Normal(op.prefix))
    ensures Agreement(h, s')
  {
    hide SyncApplied, RemovalApplied, IsReusable, UniquePaths, RowsOk, DbOk, Disk, Hashed;
    match op {
      case Sync(env, format, batches, partial, owners, retained, view) =>
        ReusableRows(s.db, view, env);
        SyncKeepsAgreement(h, s, env, format, batches, partial, owners, retained);
      case Undone =>
      case Removal(prefix) =>
        NormalTarget(prefix);
        RemovalAgreement(h, s, prefix, s');
    }
  }

  /** Over every sequence of full syncs, item syncs, failures and removals by normal prefixes, in any order and
      whatever the provider answers: database and disk agree in every state, on paths and on contents. */
  lemma {:induction false} RunKeepsAgreement(h: Hash, states: seq<System>, ops: seq<Operation>, n: nat)
    requires IsRun(h, states, ops) && Agreement(h, states[0]) && n < |states|
    requires forall op :: op in ops && op.Removal? ==> Normal(op.prefix)
    ensures Agreement(h, states[n])
  {
    hide Agreement, Step, Normal;
    if n > 0 {
      RunKeepsAgreement(h, states, ops, n - 1);
      StepKeepsAgreement(h, states[n - 1], ops[n - 1], states[n]);
    }
  }

  // ---------- Rows stay fit for reuse ----------

  /** The same parser behind both, and no blank playback address. */
  ghost predicate SameParser(a: Env, b: Env) {
    && a.parse == b.parse && a.isBlurayStream == b.isBlurayStream
    && forall k :: !Blank(PlaybackUrl(a, k)) && !Blank(PlaybackUrl(b, k))
  }

  lemma FaithfulUnder(a: Env, b: Env, entries: map<Id, EntryRow>)
    requires SameParser(a, b) && FaithfulEntries(a, entries)
    ensures FaithfulEntries(b, entries)
  {
    hide Blank, PlaybackUrl;
    forall i | i in entries && entries[i].file.Some?
      ensures var parsed := ParsedEntry(b, entries[i].file.value);
              ValidEntry(parsed) && entries[i].season == parsed.season && entries[i].episode == parsed.episode
    {
      assert ValidEntry(ParsedEntry(a, entries[i].file.value));
    }
  }

  lemma SyncKeepsFaithful(
    h: Hash, s: System, env: Env, format: ManifestFormat, batches: seq<Batch>, partial: bool, owners: Synced -> Id,
    retained: set<string>)
    requires UniquePaths(env.reusable) && RowsOk(env) && env.contentHash == h && FaithfulEntries(env, s.db.entries)
    ensures var r := SyncApplied(s, env, format, batches, partial, owners, retained);
            r.Ok? ==> FaithfulEntries(env, r.value.db.entries)
  {
    hide RunOutcome, UniquePaths, RowsOk, FaithfulEntries, WithoutStale, StalePaths, PersistedFiles, RowOk, LastPrinted,
      PrintedPaths, Disk, HasLookupFailure, Hashed;
    var run := RunOutcome(env, format, None, partial, s.files, batches);
    if run.Ok? {
      RunOutcomeDid(h, env, format, partial, s.files, batches);
      PersistKeepsFaithful(s.db, run.value.0.synced, owners, env);
    }
  }

  /** Over every such sequence whose syncs share a parser, the rows offered for reuse keep the season and episode
      of their own file names, which is what reuse needs to agree with reprocessing. */
  lemma {:induction false} RunKeepsFaithful(h: Hash, env: Env, states: seq<System>, ops: seq<Operation>, n: nat)
    requires IsRun(h, states, ops) && Agreement(h, states[0]) && n < |states|
    requires forall op :: op in ops && op.Removal? ==> Normal(op.prefix)
    requires forall op :: op in ops && op.Sync? ==> SameParser(env, op.env)
    requires FaithfulEntries(env, states[0].db.entries)
    ensures FaithfulEntries(env, states[n].db.entries)
  {
    hide Agreement, Normal, FaithfulEntries, SyncApplied, IsReusable, SameParser, UniquePaths, RemovalApplied;
    if n > 0 {
      RunKeepsFaithful(h, env, states, ops, n - 1);
      RunKeepsAgreement(h, states, ops, n - 1);
      var s, op := states[n - 1], ops[n - 1];
      assert Step(h, s, op, states[n]) && op in ops;
      match op {
        case Sync(e, format, batches, partial, owners, retained, view) =>
          assert DbOk(s.db) by { AgreementHasDb(h, s); }
          ReusableRows(s.db, view, e);
          FaithfulUnder(env, e, s.db.entries);
          SyncKeepsFaithful(h, s, e, format, batches, partial, owners, retained);
          assert SameParser(e, env) by { SameParserBack(env, e); }
          FaithfulUnder(e, env, states[n].db.entries);
        case Undone =>
        case Removal(prefix) =>
          RemovalLeavesEntries(s, prefix, states[n]);
      }
    }
  }

  lemma AgreementHasDb(h: Hash, s: System)
    requires Agreement(h, s)
    ensures DbOk(s.db)
  {
  }

  lemma SameParserBack(a: Env, b: Env)
    requires SameParser(a, b)
    ensures SameParser(b, a)
  {
  }
}
