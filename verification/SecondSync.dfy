/** Synchronizing twice: when nothing has changed, the second full sync reuses everything and changes nothing. */
module SecondSync {
  import opened Common
  import opened LibraryAgreement
  import opened LibraryFiles
  import opened LibraryPaths
  import opened NextRun
  import opened StrmSync
  import opened SyncDecisions
  import opened SyncRuns
  import opened SyncState
  import opened TorBoxFiles

  // ---------- What every run lists ----------

  /** The file stands in one of the batches. */
  ghost predicate IsListed(batches: seq<Batch>, f: TorBoxFile) {
    exists b :: b in batches && f in b.files
  }

  lemma StepSyncsOwnFile(env: Env, discovered: map<string, string>, p: Progress, f: TorBoxFile)
    requires RowsOk(env)
    ensures var r := StepFile(env, discovered, p, f);
            r.Ok? ==> forall x :: x in r.value.tally.synced ==> x in p.tally.synced || x.file == f
    ensures var r := StepFile(env, discovered, p, f);
            r.Ok? ==> r.value.tally.manifest == Scanned(env, p.tally, Key(f)).manifest
  {
    hide StepFile, Decide, RowsOk, RowOk, TargetPath, ValidEntry, Scanned, Content, PlaybackUrl;
    var s := StepShape(env, discovered, p, f);
  }

  /** The manifest entries of the first files of a batch, after those before. */
  function ManifestOfFiles(env: Env, before: seq<(string, string)>, files: seq<TorBoxFile>): seq<(string, string)>
    decreases |files|
  {
    if files == [] || env.resolverUrl.None? then before
    else
      ManifestOfFiles(env, before, Front(files)) + [(env.entryId(Key(Last(files))), env.directUrl(Key(Last(files))))]
  }

  function ManifestOf(env: Env, batches: seq<Batch>): seq<(string, string)>
    decreases |batches|
  {
    if batches == [] then [] else ManifestOfFiles(env, ManifestOf(env, Front(batches)), Last(batches).files)
  }

  lemma {:induction false} FilesListed(env: Env, batches: seq<Batch>, b: Batch, p: Progress, files: seq<TorBoxFile>)
    requires RowsOk(env) && b in batches && (forall f :: f in files ==> f in b.files)
    requires forall x :: x in p.tally.synced ==> IsListed(batches, x.file)
    ensures var r := RunFiles(env, None, b, Running(p), files);
            r.Running? ==>
              && (forall x :: x in r.p.tally.synced ==> IsListed(batches, x.file))
              && r.p.tally.manifest == ManifestOfFiles(env, p.tally.manifest, files)
    decreases |files|
  {
    hide RowsOk, StepFile, IsListed;
    if files != [] {
      assert forall f :: f in Front(files) ==> f in files;
      FilesListed(env, batches, b, p, Front(files));
      var r := RunFiles(env, None, b, Running(p), Front(files));
      assert Last(files) in files;
      Lists(batches, b, Last(files));
      if r.Running? {
        StepSyncsOwnFile(env, Discovered(b), r.p, Last(files));
      }
    } else {
      assert ManifestOfFiles(env, p.tally.manifest, files) == p.tally.manifest;
    }
  }

  lemma Lists(batches: seq<Batch>, b: Batch, f: TorBoxFile)
    requires b in batches && f in b.files
    ensures IsListed(batches, f)
  {
  }

  /** A run that ends has noted all listed files for the manifest, and synced none that is not listed. */
  lemma {:induction false} RunListed(env: Env, files: Files, all: seq<Batch>, batches: seq<Batch>)
    requires UniquePaths(env.reusable) && RowsOk(env) && forall b :: b in batches ==> b in all
    ensures var r := RunBatches(env, None, Running(Start(env, files)), batches);
            r.Running? ==>
              && (forall x :: x in r.p.tally.synced ==> IsListed(all, x.file))
              && r.p.tally.manifest == ManifestOf(env, batches)
    decreases |batches|
  {
    hide RowsOk, RunFiles, IsListed, UniquePaths, ManifestOfFiles;
    if batches != [] {
      assert forall b :: b in Front(batches) ==> b in batches;
      RunListed(env, files, all, Front(batches));
      var r := RunBatches(env, None, Running(Start(env, files)), Front(batches));
      var b := Last(batches);
      assert b in batches;
      if r.Running? {
        FilesListed(env, all, b, WithListing(b, r.p), b.files);
      }
    }
  }

  /** Both runs give files the same ids, addresses and, if any, resolver. */
  ghost predicate SameAddresses(env: Env, other: Env) {
    other.entryId == env.entryId && other.directUrl == env.directUrl && other.resolverUrl == env.resolverUrl
  }

  lemma {:induction false} SameManifestOfFiles(env: Env, other: Env, before: seq<(string, string)>, files: seq<TorBoxFile>)
    requires SameAddresses(env, other)
    ensures ManifestOfFiles(other, before, files) == ManifestOfFiles(env, before, files)
    decreases |files|
  {
    if files != [] {
      SameManifestOfFiles(env, other, before, Front(files));
    }
  }

  lemma {:induction false} SameManifest(env: Env, other: Env, batches: seq<Batch>)
    requires SameAddresses(env, other)
    ensures ManifestOf(other, batches) == ManifestOf(env, batches)
    decreases |batches|
  {
    hide ManifestOfFiles;
    if batches != [] {
      SameManifest(env, other, Front(batches));
      SameManifestOfFiles(env, other, ManifestOf(env, Front(batches)), Last(batches).files);
    }
  }

  // ---------- Quiet runs ----------

  /** The file is reused or skipped. */
  predicate Quiet(env: Env, disk: Files, b: Batch, f: TorBoxFile) {
    var d := Decide(env, disk, f, Discovered(b));
    d.Keep? || d.Skip?
  }

  /** Nothing was written or claimed; all that is synced was reused, from a decision to keep it, and counted. */
  ghost predicate Undisturbed(env: Env, disk: Files, batches: seq<Batch>, p: Progress) {
    && UniquePaths(env.reusable) && p.files == disk && p.claimed == InitialClaims(env.reusable)
    && p.tally.reused == |p.tally.synced|
    && forall x :: x in p.tally.synced ==> FromKeep(env, disk, batches, x)
  }

  ghost predicate FromKeep(env: Env, disk: Files, batches: seq<Batch>, x: Synced) {
    exists b, f :: b in batches && f in b.files && Keeps(env, disk, b, f, x)
  }

  predicate Keeps(env: Env, disk: Files, b: Batch, f: TorBoxFile, x: Synced) {
    Decide(env, disk, f, Discovered(b)).Keep? && x == Decide(env, disk, f, Discovered(b)).row.(reused := true)
  }

  ghost predicate HasKept(env: Env, disk: Files, b: Batch, synced: seq<Synced>, f: TorBoxFile) {
    Decide(env, disk, f, Discovered(b)).Keep? ==> Decide(env, disk, f, Discovered(b)).row.(reused := true) in synced
  }

  lemma QuietStep(env: Env, disk: Files, batches: seq<Batch>, b: Batch, p: Progress, f: TorBoxFile)
    requires Undisturbed(env, disk, batches, p) && b in batches && f in b.files && Quiet(env, disk, b, f)
    ensures var r := StepFile(env, Discovered(b), p, f);
            && r.Ok? && Undisturbed(env, disk, batches, r.value) && HasKept(env, disk, b, r.value.tally.synced, f)
            && p.tally.synced <= r.value.tally.synced
  {
    hide Decide, TargetPath, SyncedFile, ValidEntry, InitialClaims, UniquePaths, Content, Scanned;
    var d := Decide(env, disk, f, Discovered(b));
    ScannedKeeps(env, p.tally, Key(f));
    var r := StepFile(env, Discovered(b), p, f);
    if d.Keep? {
      assert Keeps(env, disk, b, f, d.row.(reused := true));
      assert FromKeep(env, disk, batches, d.row.(reused := true));
      assert r.value.tally.synced == p.tally.synced + [d.row.(reused := true)];
    }
  }

  lemma ScannedKeeps(env: Env, t: Tally, key: SourceFileKey)
    ensures var u := Scanned(env, t, key); u.synced == t.synced && u.reused == t.reused && u.skipped == t.skipped
  {
  }

  lemma HasKeptStays(env: Env, disk: Files, b: Batch, synced: seq<Synced>, more: seq<Synced>, f: TorBoxFile)
    requires HasKept(env, disk, b, synced, f) && synced <= more
    ensures HasKept(env, disk, b, more, f)
  {
    hide Decide;
  }

  lemma {:induction false} QuietFiles(env: Env, disk: Files, batches: seq<Batch>, b: Batch, p: Progress, files: seq<TorBoxFile>)
    requires Undisturbed(env, disk, batches, p) && b in batches
    requires forall f :: f in files ==> f in b.files && Quiet(env, disk, b, f)
    ensures var r := RunFiles(env, None, b, Running(p), files);
            && r.Running? && Undisturbed(env, disk, batches, r.p) && p.tally.synced <= r.p.tally.synced
            && forall f :: f in files ==> HasKept(env, disk, b, r.p.tally.synced, f)
    decreases |files|
  {
    hide Undisturbed, Quiet, StepFile, HasKept;
    if files != [] {
      assert forall f :: f in Front(files) ==> f in files;
      QuietFiles(env, disk, batches, b, p, Front(files));
      var r := RunFiles(env, None, b, Running(p), Front(files));
      assert Last(files) in files;
      QuietStep(env, disk, batches, b, r.p, Last(files));
      var after := RunFiles(env, None, b, Running(p), files);
      forall f | f in files ensures HasKept(env, disk, b, after.p.tally.synced, f) {
        if f in Front(files) {
          HasKeptStays(env, disk, b, r.p.tally.synced, after.p.tally.synced, f);
        } else {
          assert f == Last(files);
        }
      }
    }
  }

  ghost predicate AllKept(env: Env, disk: Files, batches: seq<Batch>, synced: seq<Synced>) {
    forall b, f :: b in batches && f in b.files ==> HasKept(env, disk, b, synced, f)
  }

  lemma AllKeptStays(env: Env, disk: Files, batches: seq<Batch>, synced: seq<Synced>, more: seq<Synced>, last: Batch)
    requires AllKept(env, disk, batches, synced) && synced <= more
    requires forall f :: f in last.files ==> HasKept(env, disk, last, more, f)
    ensures AllKept(env, disk, batches + [last], more)
  {
    hide HasKept;
    forall b, f | b in batches + [last] && f in b.files ensures HasKept(env, disk, b, more, f) {
      if b in batches {
        HasKeptStays(env, disk, b, synced, more, f);
      }
    }
  }

  lemma ListingIsQuiet(env: Env, disk: Files, batches: seq<Batch>, b: Batch, p: Progress)
    requires Undisturbed(env, disk, batches, p)
    ensures Undisturbed(env, disk, batches, WithListing(b, p))
  {
    hide InitialClaims, UniquePaths, FromKeep;
  }

  /** A run in which every listed file is quiet writes nothing and syncs exactly what is kept. */
  lemma {:induction false} QuietRun(env: Env, disk: Files, all: seq<Batch>, batches: seq<Batch>)
    requires UniquePaths(env.reusable)
    requires forall b, f :: b in batches && f in b.files ==> b in all && Quiet(env, disk, b, f)
    requires forall b :: b in batches ==> b in all
    ensures var r := RunBatches(env, None, Running(Start(env, disk)), batches);
            r.Running? && Undisturbed(env, disk, all, r.p) && AllKept(env, disk, batches, r.p.tally.synced)
    decreases |batches|
  {
    hide Quiet, RunFiles, FromKeep, HasKept, InitialClaims, UniquePaths;
    if batches == [] {
      assert Undisturbed(env, disk, all, Start(env, disk));
    } else {
      assert forall b :: b in Front(batches) ==> b in batches;
      hide Undisturbed, AllKept;
      QuietRun(env, disk, all, Front(batches));
      var r := RunBatches(env, None, Running(Start(env, disk)), Front(batches));
      var b := Last(batches);
      assert b in batches && batches == Front(batches) + [b];
      ListingIsQuiet(env, disk, all, b, r.p);
      QuietFiles(env, disk, all, b, WithListing(b, r.p), b.files);
      var after := RunBatches(env, None, Running(Start(env, disk)), batches);
      AllKeptStays(env, disk, Front(batches), r.p.tally.synced, after.p.tally.synced, b);
    }
  }

  // ---------- The second sync ----------

  /** The row of a synced file is offered, accepted and kept. */
  predicate StillKept(env: Env, s: System, view: Id -> MediaView, x: Synced, b: Batch) {
    && HasSource(s.db, x.path)
    && Unchanged(env, s.files, x, view(s.db.entries[s.db.generated[x.path].entry].media), Discovered(b))
    && ReuseDecision(env, RowOf(s.db, x.path, view), PlaybackUrl(env, Key(x.file))).Keep?
  }

  /** The same is listed as before; what was synced is unchanged and not excluded, and what was not is skipped again. */
  ghost predicate NothingChanged(env: Env, s: System, view: Id -> MediaView, synced: seq<Synced>, batches: seq<Batch>) {
    && (forall x, b :: x in synced && b in batches && x.file in b.files ==> StillKept(env, s, view, x, b))
    && (forall b, f :: b in batches && f in b.files ==>
          (exists x :: x in synced && x.file == f) || Decide(env, s.files, f, Discovered(b)).Skip?)
  }

  /** What the first sync leaves of one of its files. */
  ghost predicate Left(db: Db, view: Id -> MediaView, reusable: map<SourceFileKey, Synced>, x: Synced) {
    && Recorded(db, x) && HasSource(db, x.path) && Lookup(reusable, Key(x.file)) == Some(RowOf(db, x.path, view))
  }

  /** A synced file whose row is left, unchanged, is decided to be kept as that row. */
  lemma UnchangedIsKept(env: Env, s: System, view: Id -> MediaView, x: Synced, b: Batch)
    requires Left(s.db, view, env.reusable, x) && StillKept(env, s, view, x, b)
    ensures Decide(env, s.files, x.file, Discovered(b)) == Keep(RowOf(s.db, x.path, view))
    ensures RowOf(s.db, x.path, view).path == x.path && RowOf(s.db, x.path, view).infoHash == x.infoHash
  {
    ReusesUnlessChanged(env, s.db, view, s.files, x, Discovered(b));
    hide Reuses, Unchanged, ReuseDecision, PlaybackUrl;
  }

  lemma KeptFileIsSynced(env: Env, s: System, view: Id -> MediaView, synced: seq<Synced>, batches: seq<Batch>, b: Batch, f: TorBoxFile)
    returns (x: Synced)
    requires NothingChanged(env, s, view, synced, batches) && b in batches && f in b.files
    requires forall y :: y in synced ==> Left(s.db, view, env.reusable, y)
    requires !Decide(env, s.files, f, Discovered(b)).Skip?
    ensures x in synced && x.file == f && StillKept(env, s, view, x, b)
    ensures Decide(env, s.files, f, Discovered(b)) == Keep(RowOf(s.db, x.path, view))
    ensures RowOf(s.db, x.path, view).path == x.path && RowOf(s.db, x.path, view).infoHash == x.infoHash
  {
    hide Decide, StillKept, Left;
    x :| x in synced && x.file == f;
    assert StillKept(env, s, view, x, b);
    UnchangedIsKept(env, s, view, x, b);
  }

  /** The second run syncs the same paths, and no hash that the first did not. */
  lemma SameSynced(
    env: Env, s: System, view: Id -> MediaView, synced: seq<Synced>, batches: seq<Batch>, p: Progress)
    requires NothingChanged(env, s, view, synced, batches)
    requires forall y :: y in synced ==> Left(s.db, view, env.reusable, y) && IsListed(batches, y.file)
    requires Undisturbed(env, s.files, batches, p) && AllKept(env, s.files, batches, p.tally.synced)
    ensures PathsOf(p.tally.synced) == PathsOf(synced)
    ensures HashesOf(p.tally.synced) <= HashesOf(synced)
    ensures forall y :: y in p.tally.synced ==> y.reused
  {
    hide Decide, StillKept, Left, UniquePaths, InitialClaims, NothingChanged, AllKept, IsListed, RowOf;
    forall y | y in p.tally.synced
      ensures y.reused && y.path in PathsOf(synced) && (y.infoHash.Some? ==> y.infoHash.value in HashesOf(synced))
    {
      assert FromKeep(env, s.files, batches, y);
      var b, f :| b in batches && f in b.files && Keeps(env, s.files, b, f, y);
      var x := KeptFileIsSynced(env, s, view, synced, batches, b, f);
      assert y.path == x.path && y.infoHash == x.infoHash;
    }
    forall x | x in synced ensures x.path in PathsOf(p.tally.synced) {
      KeptAgain(env, s, view, synced, batches, p.tally.synced, x);
    }
  }

  lemma KeptUnlessChanged(env: Env, s: System, view: Id -> MediaView, synced: seq<Synced>, batches: seq<Batch>, x: Synced, b: Batch)
    requires NothingChanged(env, s, view, synced, batches) && x in synced && b in batches && x.file in b.files
    ensures StillKept(env, s, view, x, b)
  {
  }

  lemma KeptAgain(
    env: Env, s: System, view: Id -> MediaView, synced: seq<Synced>, batches: seq<Batch>, again: seq<Synced>, x: Synced)
    requires NothingChanged(env, s, view, synced, batches) && AllKept(env, s.files, batches, again)
    requires x in synced && Left(s.db, view, env.reusable, x) && IsListed(batches, x.file)
    ensures x.path in PathsOf(again)
  {
    var b :| b in batches && x.file in b.files;
    hide Decide, StillKept, Left, NothingChanged;
    KeptUnlessChanged(env, s, view, synced, batches, x, b);
    UnchangedIsKept(env, s, view, x, b);
    assert HasKept(env, s.files, b, again, x.file);
    var row := Decide(env, s.files, x.file, Discovered(b)).row;
    assert row.(reused := true) in again;
  }

  lemma EverythingIsQuiet(env: Env, s: System, view: Id -> MediaView, synced: seq<Synced>, batches: seq<Batch>)
    requires NothingChanged(env, s, view, synced, batches)
    requires forall y :: y in synced ==> Left(s.db, view, env.reusable, y)
    ensures forall b, f :: b in batches && f in b.files ==> Quiet(env, s.files, b, f)
  {
    hide Decide, NothingChanged, Left;
    forall b, f | b in batches && f in b.files ensures Quiet(env, s.files, b, f) {
      if !Decide(env, s.files, f, Discovered(b)).Skip? {
        var x := KeptFileIsSynced(env, s, view, synced, batches, b, f);
      }
    }
  }

  lemma {:induction false} ReusedChangeNothing(db: Db, synced: seq<Synced>, owners: Synced -> Id)
    requires forall x :: x in synced ==> x.reused
    ensures PersistedFiles(db, synced, owners) == Ok(db)
  {
    if synced != [] {
      assert forall x :: x in Front(synced) ==> x in synced;
      ReusedChangeNothing(db, Front(synced), owners);
      assert Last(synced) in synced;
    }
  }

  /** After a stale pass there is nothing stale for the same paths and no more hashes. */
  lemma NothingGoesStale(before: Db, after: Db, first: seq<Synced>, second: seq<Synced>, retained: set<string>)
    requires after.generated == before.generated - StalePaths(before, first, retained) && after.entries == before.entries
    requires PathsOf(second) == PathsOf(first) && HashesOf(second) <= HashesOf(first)
    ensures StalePaths(after, second, retained) == {}
  {
    hide PathsOf, HashesOf;
    forall p | p in after.generated && p !in PathsOf(first) ensures Retained(after, p, retained - HashesOf(second)) {
      assert Retained(before, p, retained - HashesOf(first));
    }
  }

  /** What a full run syncs; the rows that a run is offered have distinct paths. */
  ghost function SyncedBy(env: Env, format: ManifestFormat, files: Files, batches: seq<Batch>): seq<Synced> {
    if UniquePaths(env.reusable) && RunOutcome(env, format, None, false, files, batches).Ok?
    then RunOutcome(env, format, None, false, files, batches).value.0.synced else []
  }

  /** What stands between the run of the first sync and the state that it leaves. */
  ghost predicate Leads(
    env: Env, format: ManifestFormat, batches: seq<Batch>, retained: set<string>, p: Progress, db: Db, s': System)
  {
    var stale := StalePaths(db, p.tally.synced, retained);
    && (forall x :: x in p.tally.synced ==> IsListed(batches, x.file))
    && p.tally.manifest == ManifestOf(env, batches)
    && (forall q :: q in stale ==> GeneratedPath(q))
    && Finished(env, format, p, false).Ok?
    && s'.files == WithoutStale(Finished(env, format, p, false).value.1, stale)
    && s'.db.generated == db.generated - stale && s'.db.entries == db.entries
  }

  lemma FinishedResult(env: Env, format: ManifestFormat, p: Progress)
    ensures var r := Finished(env, format, p, false);
            r.Ok? ==> r.value.0.synced == p.tally.synced && !r.value.0.partial
  {
    hide PathsOf, Merged;
  }

  /** A full run that ends has listed, noted and finished. */
  lemma FullRunEnds(env: Env, format: ManifestFormat, files: Files, batches: seq<Batch>) returns (p: Progress)
    requires UniquePaths(env.reusable) && RowsOk(env) && RunOutcome(env, format, None, false, files, batches).Ok?
    ensures RunBatches(env, None, Running(Start(env, files)), batches) == Running(p)
    ensures RunOutcome(env, format, None, false, files, batches) == Finished(env, format, p, false)
    ensures SyncedBy(env, format, files, batches) == p.tally.synced
    ensures !RunOutcome(env, format, None, false, files, batches).value.0.partial
    ensures forall x :: x in p.tally.synced ==> IsListed(batches, x.file)
    ensures p.tally.manifest == ManifestOf(env, batches)
  {
    hide RunBatches, Start, RowsOk, UniquePaths, Finished, IsListed, ManifestOf;
    var r := RunBatches(env, None, Running(Start(env, files)), batches);
    NoLimitNoStop(env, Running(Start(env, files)), batches);
    RunListed(env, files, batches, batches);
    p := r.p;
    FinishedResult(env, format, p);
  }

  lemma PersistedOk(db: Db, result: SyncResult, owners: Synced -> Id, retained: set<string>)
    requires Persisted(db, result, owners, retained).Ok? && !result.partial
    ensures PersistedFiles(db, result.synced, owners).Ok?
    ensures var before := PersistedFiles(db, result.synced, owners).value;
            var stale := StalePaths(before, result.synced, retained);
            Persisted(db, result, owners, retained).value == (before.(generated := before.generated - stale), stale)
  {
    hide PersistedFiles, StalePaths;
  }

  lemma FirstRunLeads(
    h: Hash, s: System, env: Env, format: ManifestFormat, batches: seq<Batch>, owners: Synced -> Id, retained: set<string>,
    view: Id -> MediaView, s': System) returns (p: Progress, db: Db)
    requires Agreement(h, s) && Step(h, s, Sync(env, format, batches, false, owners, retained, view), s')
    ensures RunBatches(env, None, Running(Start(env, s.files)), batches) == Running(p)
    ensures Leads(env, format, batches, retained, p, db, s') && SyncedBy(env, format, s.files, batches) == p.tally.synced
    ensures PersistedFiles(s.db, p.tally.synced, owners) == Ok(db)
    ensures DbOk(s.db) && PathsGenerated(p.tally.synced) && RecordedUpTo(s.db, p.tally.synced, 0)
  {
    hide Agreement, RunBatches, RunOutcome, Start, UniquePaths, IsReusable, RowsOk, DbOk, RecordedUpTo, Finished, ManifestOf,
      IsListed, HasLookupFailure, WithoutStale, PathsOf, PathsGenerated, PersistedFiles, StalePaths, GeneratedPath,
      PrintedPaths, SyncedBy, RowOk, LastPrinted, Disk, Hashed, Persisted;
    AgreementHasDb(h, s);
    ReusableRows(s.db, view, env);
    p := FullRunEnds(env, format, s.files, batches);
    RunIsRecorded(h, s, env, format, batches, false, view);
    RunOutcomeDid(h, env, format, false, s.files, batches);
    var result := RunOutcome(env, format, None, false, s.files, batches).value.0;
    FinishedResult(env, format, p);
    PersistedOk(s.db, result, owners, retained);
    db := PersistedFiles(s.db, p.tally.synced, owners).value;
    PrintedAreGenerated(env, p.tally.synced);
    PersistKeepsDb(s.db, result, owners, retained);
    StaleIsGenerated(s.db, p.tally.synced, StalePaths(db, p.tally.synced, retained));
  }

  /** Every file of the first sync has left its row for the second. */
  lemma FirstSyncLeaves(
    before: Db, synced: seq<Synced>, retained: set<string>, s': System, nextView: Id -> MediaView,
    reusable: map<SourceFileKey, Synced>, x: Synced)
    requires RecordedUpTo(before, synced, |synced|) && AllSeparate(synced) && DbOk(s'.db) && x in synced
    requires s'.db.generated == before.generated - StalePaths(before, synced, retained) && s'.db.entries == before.entries
    requires IsReusable(s'.db, nextView, reusable)
    ensures Left(s'.db, nextView, reusable, x)
  {
    var after := before.(generated := before.generated - StalePaths(before, synced, retained));
    var k :| 0 <= k < |synced| && synced[k] == x;
    hide RecordedUpTo, AllSeparate, IsReusable, DbOk, StalePaths, RowOf;
    StillRecorded(before, synced, retained, after, k);
    forall p | p in s'.db.generated && s'.db.generated[p].entry == s'.db.generated[x.path].entry ensures p == x.path {
      OnePathPerEntry(before, synced, retained, after, k, p);
    }
    OfferedRow(s'.db, nextView, reusable, x);
  }

  /** The manifest that the first sync left is the one that the second would write. */
  lemma SecondManifest(
    env: Env, format: ManifestFormat, p: Progress, stale: set<Path>, next: Env, q: Progress)
    requires Finished(env, format, p, false).Ok? && next.resolverUrl == env.resolverUrl
    requires forall path :: path in stale ==> GeneratedPath(path)
    requires q.files == WithoutStale(Finished(env, format, p, false).value.1, stale) && q.tally.manifest == p.tally.manifest
    ensures Finished(next, format, q, false) == Ok((ResultOf(next, q.tally, false), q.files))
  {
    hide PathsOf, Merged;
    var after := Finished(env, format, p, false).value.1;
    StaleLeavesDisk(after, stale);
    assert !GeneratedPath(MANIFEST_PATH);
    hide GeneratedPath, WithoutStale;
    assert Lookup(q.files, MANIFEST_PATH) == Lookup(after, MANIFEST_PATH);
    if WritesManifest(env, p.tally, false) {
      var text := format.print_(Merged(map[], p.tally.manifest));
      assert q.files[MANIFEST_PATH] == text && q.files[MANIFEST_PATH := text] == q.files;
    }
  }

  /** The second run finds everything quiet. */
  lemma SecondRun(next: Env, s': System, view: Id -> MediaView, synced: seq<Synced>, batches: seq<Batch>)
    returns (q: Progress)
    requires UniquePaths(next.reusable) && RowsOk(next) && NothingChanged(next, s', view, synced, batches)
    requires forall y :: y in synced ==> Left(s'.db, view, next.reusable, y) && IsListed(batches, y.file)
    ensures RunBatches(next, None, Running(Start(next, s'.files)), batches) == Running(q)
    ensures q.files == s'.files && q.tally.reused == |q.tally.synced| && q.tally.manifest == ManifestOf(next, batches)
    ensures PathsOf(q.tally.synced) == PathsOf(synced) && HashesOf(q.tally.synced) <= HashesOf(synced)
    ensures forall y :: y in q.tally.synced ==> y.reused
  {
    hide RunBatches, Start, UniquePaths, RowsOk, NothingChanged, Left, IsListed, Quiet, AllKept, FromKeep, ManifestOf,
      PathsOf, HashesOf;
    EverythingIsQuiet(next, s', view, synced, batches);
    QuietRun(next, s'.files, batches, batches);
    var r := RunBatches(next, None, Running(Start(next, s'.files)), batches);
    q := r.p;
    RunListed(next, s'.files, batches, batches);
    SameSynced(next, s', view, synced, batches, q);
  }

  lemma AppliedAgain(
    s: System, env: Env, format: ManifestFormat, batches: seq<Batch>, owners: Synced -> Id, retained: set<string>,
    q: Progress)
    requires UniquePaths(env.reusable) && RunBatches(env, None, Running(Start(env, s.files)), batches) == Running(q)
    requires Finished(env, format, q, false) == Ok((ResultOf(env, q.tally, false), s.files))
    requires (forall y :: y in q.tally.synced ==> y.reused) && StalePaths(s.db, q.tally.synced, retained) == {}
    ensures RunOutcome(env, format, None, false, s.files, batches) == Ok((ResultOf(env, q.tally, false), s.files))
    ensures SyncApplied(s, env, format, batches, false, owners, retained) ==
            Ok(System(s.files, Reconciled(s.db, ResultOf(env, q.tally, false))))
  {
    hide RunBatches, Start, UniquePaths, Finished, StalePaths, WithoutStale, Reconciled, PathsOf, PersistedFiles;
    var result := ResultOf(env, q.tally, false);
    ReusedChangeNothing(s.db, q.tally.synced, owners);
    assert s.db.generated - {} == s.db.generated;
    assert Persisted(s.db, result, owners, retained) == Ok((s.db, {}));
    NothingRemoved(s.files);
  }

  /** A full sync of separate files, and another right after it over the same listings.  If each file that the first
      synced is unchanged, its media item being read as the identity that the second selects for it, and still not
      excluded, and what the first skipped is skipped again, then the second reuses everything and leaves the files,
      the entries and the rows exactly as they are, whatever else it is given. */
  lemma SecondSyncChangesNothing(
    h: Hash, s: System, env: Env, format: ManifestFormat, batches: seq<Batch>, owners: Synced -> Id, retained: set<string>,
    view: Id -> MediaView, s': System, nextView: Id -> MediaView, next: Env, nextOwners: Synced -> Id)
    requires Agreement(h, s) && Step(h, s, Sync(env, format, batches, false, owners, retained, view), s')
    requires SameAddresses(env, next)
    requires IsReusable(s'.db, nextView, next.reusable) && next.excluded == s'.db.exclusions
    requires var synced := SyncedBy(env, format, s.files, batches);
             AllSeparate(synced) && NothingChanged(next, s', nextView, synced, batches)
    ensures UniquePaths(next.reusable)
    ensures var r := SyncApplied(s', next, format, batches, false, nextOwners, retained);
            && r.Ok? && r.value.files == s'.files
            && r.value.db == s'.db.(exclusions := r.value.db.exclusions)
    ensures var second := RunOutcome(next, format, None, false, s'.files, batches);
            && second.Ok? && second.value.1 == s'.files
            && second.value.0.reused == |second.value.0.synced| && (forall y :: y in second.value.0.synced ==> y.reused)
            && PathsOf(second.value.0.synced) == PathsOf(SyncedBy(env, format, s.files, batches))
  {
    StepKeepsAgreement(h, s, Sync(env, format, batches, false, owners, retained, view), s');
    AgreementHasDb(h, s');
    ReusableRows(s'.db, nextView, next);
    var p, db := FirstRunLeads(h, s, env, format, batches, owners, retained, view, s');
    var synced := p.tally.synced;
    hide Agreement, Step, IsReusable, UniquePaths, RowsOk, DbOk, NothingChanged, AllSeparate, RecordedUpTo, PathsGenerated,
      PersistedFiles, StalePaths, RunOutcome, RunBatches, Start, Finished, ManifestOf, PathsOf, HashesOf, Left, IsListed,
      SyncedBy, SyncApplied, HasLookupFailure, GeneratedPath, WithoutStale;
    assert synced[..|synced|] == synced;
    PersistRecordsUpTo(s.db, synced, |synced|, owners);
    forall x | x in synced ensures Left(s'.db, nextView, next.reusable, x) {
      FirstSyncLeaves(db, synced, retained, s', nextView, next.reusable, x);
    }
    var q := SecondRun(next, s', nextView, synced, batches);
    SameManifest(env, next, batches);
    SecondManifest(env, format, p, StalePaths(db, synced, retained), next, q);
    NothingGoesStale(db, s'.db, synced, q.tally.synced, retained);
    AppliedAgain(s', next, format, batches, nextOwners, retained, q);
  }

  lemma NothingRemoved(files: Files)
    ensures WithoutStale(files, {}) == files
  {
  }

  lemma StaleIsGenerated(db: Db, synced: seq<Synced>, stale: set<Path>)
    requires DbOk(db) && stale <= db.generated.Keys + PrintedPaths(synced)
    requires forall q :: q in PrintedPaths(synced) ==> GeneratedPath(q)
    ensures forall q :: q in stale ==> GeneratedPath(q)
  {
    hide GeneratedPath, EntriesOk, PrintedPaths;
  }
}
