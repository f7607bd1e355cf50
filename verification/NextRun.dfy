/** What one full sync prepares for the next: its files are found again and reused unless something has changed. */
module NextRun {
  import opened Common
  import opened IdentityInputs
  import opened LibraryAgreement
  import opened LibraryFiles
  import opened LibraryPaths
  import LibraryRemoval
  import opened ReuseAgreement
  import opened StrmSync
  import opened SyncDecisions
  import opened SyncOwnership
  import opened SyncRuns
  import opened SyncState
  import opened TorBoxFiles

  /** No two synced files, printed or reused, share path or source or are twins. */
  ghost predicate AllSeparate(synced: seq<Synced>) {
    forall i, j :: 0 <= i < |synced| && 0 <= j < |synced| && i != j ==>
      synced[i].path != synced[j].path && Key(synced[i].file) != Key(synced[j].file) && !Twins(synced[i], synced[j])
  }

  /** The reused files are those of the database, and the files printed among the first `n` have their rows. */
  ghost predicate RecordedUpTo(db: Db, all: seq<Synced>, n: nat) {
    forall i :: 0 <= i < |all| && (all[i].reused || i < n) ==> Recorded(db, all[i])
  }

  /** The files that a run reuses have their rows. */
  lemma ReusedAreRecorded(db: Db, view: Id -> MediaView, env: Env, synced: seq<Synced>)
    requires IsReusable(db, view, env.reusable) && forall s :: s in synced ==> RowOk(env, s)
    ensures RecordedUpTo(db, synced, 0)
  {
    hide GeneratedPath, Faithful;
    forall i | 0 <= i < |synced| && synced[i].reused ensures Recorded(db, synced[i]) {
      assert RowOk(env, synced[i]);
      var row := env.reusable[Key(synced[i].file)];
      assert HasSource(db, row.path) && row == RowOf(db, row.path, view);
    }
  }

  lemma StepRecordsUpTo(db: Db, all: seq<Synced>, n: nat, media: Id)
    requires DbOk(db) && AllSeparate(all) && RecordedUpTo(db, all, n) && n < |all| && !all[n].reused
    ensures var r := PersistedFile(db, all[n], media);
            r.Ok? ==> RecordedUpTo(r.value, all, n + 1)
  {
    hide DbOk, PersistedFile, Recorded, Twins;
    var r := PersistedFile(db, all[n], media);
    PersistedFileIsRecorded(db, all[n], media);
    if r.Ok? {
      forall i | 0 <= i < |all| && (all[i].reused || i < n + 1) ensures Recorded(r.value, all[i]) {
        if i != n {
          OtherStaysRecorded(db, all[n], media, all[i]);
        }
      }
    }
  }

  lemma {:induction false} PersistRecordsUpTo(db: Db, all: seq<Synced>, n: nat, owners: Synced -> Id)
    requires DbOk(db) && PathsGenerated(all) && AllSeparate(all) && RecordedUpTo(db, all, 0) && n <= |all|
    ensures var r := PersistedFiles(db, all[..n], owners);
            r.Ok? ==> RecordedUpTo(r.value, all, n)
  {
    hide DbOk, PersistedFile, Recorded, Twins, GeneratedPath, AllSeparate;
    if n > 0 {
      assert Front(all[..n]) == all[..n - 1] && Last(all[..n]) == all[n - 1];
      PersistRecordsUpTo(db, all, n - 1, owners);
      assert forall s :: s in all[..n - 1] ==> s in all;
      PersistedFilesKeepDb(db, all[..n - 1], owners);
      var before := PersistedFiles(db, all[..n - 1], owners);
      if before.Ok? && !all[n - 1].reused {
        StepRecordsUpTo(before.value, all, n - 1, owners(all[n - 1]));
      }
    }
  }

  /** What a synced file carries is not absent, so no row of its entry is retained for it. */
  lemma NotRetained(before: Db, synced: seq<Synced>, retained: set<string>, x: Synced, p: Path)
    requires x in synced && Recorded(before, x)
    requires p in before.generated && before.generated[p].entry == before.generated[x.path].entry
    ensures !Retained(before, p, retained - HashesOf(synced))
  {
  }

  lemma SameKeySameEntry(entries: map<Id, EntryRow>, i: Id, j: Id)
    requires EntriesOk(entries) && i in entries && j in entries && entries[i].file.Some? && entries[j].file.Some?
    requires Key(entries[i].file.value) == Key(entries[j].file.value)
    ensures i == j
  {
  }

  /** After a full sync only its own path leads to the entry of a synced file. */
  lemma OnePathPerEntry(
    before: Db, synced: seq<Synced>, retained: set<string>, after: Db, k: nat, p: Path)
    requires RecordedUpTo(before, synced, |synced|) && AllSeparate(synced) && k < |synced|
    requires after == before.(generated := before.generated - StalePaths(before, synced, retained))
    requires p in after.generated && after.generated[p].entry == before.generated[synced[k].path].entry
    ensures p == synced[k].path
  {
    hide Twins, Retained;
    var x := synced[k];
    assert Recorded(before, x);
    NotRetained(before, synced, retained, x, p);
    var y :| y in synced && y.path == p;
    var i :| 0 <= i < |synced| && synced[i] == y;
    assert Recorded(before, y);
    assert before.entries[before.generated[p].entry].file == Some(y.file);
  }

  /** The row that the next run is offered for a synced file is the one of its path. */
  lemma OfferedRow(db: Db, view: Id -> MediaView, reusable: map<SourceFileKey, Synced>, x: Synced)
    requires DbOk(db) && IsReusable(db, view, reusable) && Recorded(db, x)
    requires forall p :: p in db.generated && db.generated[p].entry == db.generated[x.path].entry ==> p == x.path
    ensures HasSource(db, x.path) && Lookup(reusable, Key(x.file)) == Some(RowOf(db, x.path, view))
  {
    hide GeneratedPath;
    assert HasSource(db, x.path) && RowOf(db, x.path, view).file == x.file;
    var row := reusable[Key(x.file)];
    assert HasSource(db, row.path) && row == RowOf(db, row.path, view);
    SameKeySameEntry(db.entries, db.generated[row.path].entry, db.generated[x.path].entry);
  }

  /** Id, address, hash and fingerprint are those that the file was synced with, and so is what is on disk. */
  predicate SameFile(env: Env, files: Files, x: Synced, discovered: map<string, string>) {
    var key, url := Key(x.file), PlaybackUrl(env, Key(x.file));
    && env.entryId(key) == x.entryId && Some(env.fingerprint) == x.fingerprint && InfoHash(env, discovered, x.file) == x.infoHash
    && env.contentHash(url) == x.contentHash && Lookup(files, x.path) == Some(Content(url))
    && x.path !in env.unreadable
  }

  /** The media item reads as the selected identity does, and has no TMDB id if none is selected. */
  predicate ReadAlike(m: MediaView, category: Category, selected: Option<Known>) {
    match selected
    case None => m.tmdbId.None?
    case Some(known) =>
      && m.tmdbId == known.tmdbId && m.title == known.title && m.year == known.year && m.poster == known.poster
      && (known.category.None? || known.category == Some(category))
  }

  /** Nothing that processing depends on has changed since the file was synced as `x`. */
  predicate Unchanged(env: Env, files: Files, x: Synced, m: MediaView, discovered: map<string, string>) {
    && SameFile(env, files, x, discovered)
    && ReadAlike(m, x.category, SelectedIdentity(env, x.file.itemId, InfoHash(env, discovered, x.file)))
  }

  lemma ReusesUnlessChanged(env: Env, db: Db, view: Id -> MediaView, files: Files, x: Synced, discovered: map<string, string>)
    requires Recorded(db, x) && HasSource(db, x.path)
    requires Lookup(env.reusable, Key(x.file)) == Some(RowOf(db, x.path, view))
    ensures Reuses(env, files, x.file, discovered) <==>
            Unchanged(env, files, x, view(db.entries[db.generated[x.path].entry].media), discovered)
  {
    hide PlaybackUrl, InfoHash, SelectedIdentity, Content;
  }

  /** After a full sync whose files are separate, the next run reuses each of them exactly when neither the
      file, its address, its identity, the overrides nor the disk has changed. */
  lemma FullSyncPreparesNext(
    db: Db, result: SyncResult, owners: Synced -> Id, retained: set<string>, view: Id -> MediaView, env: Env, files: Files,
    discovered: map<string, string>, k: nat)
    requires DbOk(db) && PathsGenerated(result.synced) && AllSeparate(result.synced) && RecordedUpTo(db, result.synced, 0)
    requires !result.partial && Persisted(db, result, owners, retained).Ok? && k < |result.synced|
    requires IsReusable(Persisted(db, result, owners, retained).value.0, view, env.reusable)
    ensures var after, x := Persisted(db, result, owners, retained).value.0, result.synced[k];
            && HasSource(after, x.path)
            && (Reuses(env, files, x.file, discovered) <==>
                  Unchanged(env, files, x, view(after.entries[after.generated[x.path].entry].media), discovered))
  {
    var synced, x := result.synced, result.synced[k];
    var after := Persisted(db, result, owners, retained).value.0;
    var before := PersistedFiles(db, synced, owners).value;
    assert synced[..|synced|] == synced;
    hide PersistedFiles, DbOk, AllSeparate, RecordedUpTo, IsReusable, PathsGenerated, StalePaths, Reuses, Unchanged, Recorded;
    PersistRecordsUpTo(db, synced, |synced|, owners);
    PersistKeepsDb(db, result, owners, retained);
    StillRecorded(before, synced, retained, after, k);
    forall p | p in after.generated && after.generated[p].entry == after.generated[x.path].entry ensures p == x.path {
      OnePathPerEntry(before, synced, retained, after, k, p);
    }
    OfferedRow(after, view, env.reusable, x);
    ReusesUnlessChanged(env, after, view, files, x, discovered);
  }

  lemma StillRecorded(before: Db, synced: seq<Synced>, retained: set<string>, after: Db, k: nat)
    requires RecordedUpTo(before, synced, |synced|) && k < |synced|
    requires after == before.(generated := before.generated - StalePaths(before, synced, retained))
    ensures Recorded(after, synced[k]) && after.generated[synced[k].path] == before.generated[synced[k].path]
  {
    assert synced[k].path in PathsOf(synced);
    assert Recorded(before, synced[k]);
  }

  // ---------- From one state of the system to the next ----------

  /** What a run from an agreeing state hands to persistence. */
  lemma RunIsRecorded(
    h: Hash, s: System, env: Env, format: ManifestFormat, batches: seq<Batch>, partial: bool, view: Id -> MediaView)
    requires Agreement(h, s) && IsReusable(s.db, view, env.reusable) && UniquePaths(env.reusable) && env.contentHash == h
    ensures var r := RunOutcome(env, format, None, partial, s.files, batches);
            r.Ok? ==> PathsGenerated(r.value.0.synced) && RecordedUpTo(s.db, r.value.0.synced, 0)
  {
    hide Agreement, IsReusable, UniquePaths, RunOutcome, RowsOk, RowOk, RecordedUpTo, PathsGenerated, LastPrinted, PrintedPaths,
      Disk, Hashed;
    AgreementHasDb(h, s);
    ReusableRows(s.db, view, env);
    RunOutcomeDid(h, env, format, partial, s.files, batches);
    var r := RunOutcome(env, format, None, partial, s.files, batches);
    if r.Ok? {
      PrintedAreGenerated(env, r.value.0.synced);
      ReusedAreRecorded(s.db, view, env, r.value.0.synced);
    }
  }

  lemma ReconciledOffers(db: Db, result: SyncResult, view: Id -> MediaView, reusable: map<SourceFileKey, Synced>)
    requires IsReusable(Reconciled(db, result), view, reusable)
    ensures IsReusable(db, view, reusable)
  {
    var after := Reconciled(db, result);
    assert after.generated == db.generated && after.entries == db.entries;
    forall p | HasSource(db, p) ensures Key(RowOf(db, p, view).file) in reusable {
      assert HasSource(after, p) && RowOf(after, p, view) == RowOf(db, p, view);
    }
    forall k | k in reusable
      ensures HasSource(db, reusable[k].path) && reusable[k] == RowOf(db, reusable[k].path, view) && Key(reusable[k].file) == k
    {
      assert HasSource(after, reusable[k].path);
    }
  }

  /** For every full sync of the system whose files are separate: the state it leaves offers each of them to the next
      run, which reuses it exactly when file, address, fingerprint and disk are unchanged and the media item says of
      it what the then selected identity says. */
  lemma FullStepPreparesNext(
    h: Hash, s: System, env: Env, format: ManifestFormat, batches: seq<Batch>, owners: Synced -> Id, retained: set<string>,
    view: Id -> MediaView, s': System, nextView: Id -> MediaView, next: Env, files: Files, discovered: map<string, string>,
    k: nat)
    requires Agreement(h, s) && Step(h, s, Sync(env, format, batches, false, owners, retained, view), s')
    requires var synced := RunOutcome(env, format, None, false, s.files, batches).value.0.synced;
             AllSeparate(synced) && k < |synced|
    requires IsReusable(s'.db, nextView, next.reusable)
    ensures var x := RunOutcome(env, format, None, false, s.files, batches).value.0.synced[k];
            && HasSource(s'.db, x.path)
            && (Reuses(next, files, x.file, discovered) <==>
                  Unchanged(next, files, x, nextView(s'.db.entries[s'.db.generated[x.path].entry].media), discovered))
  {
    hide Agreement, RunBatches, Persisted, UniquePaths, IsReusable, AllSeparate, RecordedUpTo, PathsGenerated, Unchanged, Reuses,
      WithoutStale, HasLookupFailure, Merged, PathsOf, DbOk;
    RunIsRecorded(h, s, env, format, batches, false, view);
    AgreementHasDb(h, s);
    var result := RunOutcome(env, format, None, false, s.files, batches).value.0;
    SkippedNothingPartial(env, format, s.files, batches);
    ReconciledOffers(Persisted(s.db, result, owners, retained).value.0, result, nextView, next.reusable);
    FullSyncPreparesNext(s.db, result, owners, retained, nextView, next, files, discovered, k);
  }

  /** A run without a limit that is not partial has a result that is not. */
  lemma SkippedNothingPartial(env: Env, format: ManifestFormat, files: Files, batches: seq<Batch>)
    requires UniquePaths(env.reusable)
    ensures var r := RunOutcome(env, format, None, false, files, batches); r.Ok? ==> !r.value.0.partial
  {
    hide RunBatches, Start, UniquePaths, Merged, PathsOf;
    NoLimitNoStop(env, Running(Start(env, files)), batches);
  }

  lemma OfferedIsFaithful(
    h: Hash, first: Env, states: seq<System>, ops: seq<Operation>, n: nat, env: Env, view: Id -> MediaView, k: SourceFileKey)
    requires IsRun(h, states, ops) && Agreement(h, states[0]) && n < |states|
    requires forall op :: op in ops && op.Removal? ==> LibraryRemoval.Normal(op.prefix)
    requires forall op :: op in ops && op.Sync? ==> SameParser(first, op.env)
    requires FaithfulEntries(first, states[0].db.entries) && SameParser(first, env)
    requires IsReusable(states[n].db, view, env.reusable) && k in env.reusable
    ensures Faithful(env, env.reusable[k])
  {
    hide IsRun, Agreement, FaithfulEntries, SameParser, IsReusable, Faithful, LibraryRemoval.Normal;
    RunKeepsFaithful(h, first, states, ops, n);
    FaithfulUnder(first, env, states[n].db.entries);
    ReusableRowsAreFaithful(states[n].db, view, env);
  }

  /** A faithful row that is kept is reprocessed alike exactly when it is stable; stable, or complete and not overridden,
      it gives the step the outcome that reprocessing would. */
  lemma AcceptedRowReprocessesAlike(env: Env, discovered: map<string, string>, p: Progress, f: TorBoxFile)
    requires ReusableKept(env, p.claimed) && Reuses(env, p.files, f, discovered) && Faithful(env, env.reusable[Key(f)])
    ensures var row, url := env.reusable[Key(f)], PlaybackUrl(env, Key(f));
            var selected := SelectedIdentity(env, f.itemId, InfoHash(env, discovered, f));
            && (ReuseDecision(env, row, url).Keep? ==>
                  (Agrees(row, url, Keep(row), FreshDecision(env, f, selected)) <==> Stable(env, row, f, selected)))
            && (Stable(env, row, f, selected)
                || (selected.Some? && Complete(selected.value)
                    && (ValidEntry(EntryOf(row, url)) ==> SourcePrefix(EntryOf(row, url)) !in env.overrides)) ==>
                  SameOutcome(StepFile(env, discovered, p, f), FreshStep(env, discovered, p, f)))
  {
    var row, hash := env.reusable[Key(f)], InfoHash(env, discovered, f);
    var selected := SelectedIdentity(env, f.itemId, hash);
    hide Stable, Complete, Faithful, SameOutcome, StepFile, FreshStep, Agrees, FreshDecision, ReuseDecision, ValidEntry,
      SourcePrefix, ReusableKept, SelectedIdentity, InfoHash, PlaybackUrl, Reusable;
    if ReuseDecision(env, row, PlaybackUrl(env, Key(f))).Keep? {
      KeptAgrees(env, p.files, row, f, hash, selected);
    }
    if Stable(env, row, f, selected) {
      StableReuseEqualsReprocessing(env, discovered, p, f);
    } else if selected.Some? && Complete(selected.value)
              && (ValidEntry(EntryOf(row, PlaybackUrl(env, Key(f)))) ==>
                    SourcePrefix(EntryOf(row, PlaybackUrl(env, Key(f)))) !in env.overrides) {
      ReuseEqualsReprocessing(env, discovered, p, f, selected.value);
    }
  }

  /** In every state of every run of operations that share a parser: a row that the state offers and a sync accepts
      comes to what processing its file again would, whenever it is stable, and against a complete identity
      whenever no override names its prefix. */
  lemma AcceptedRowsReprocessAlike(
    h: Hash, first: Env, states: seq<System>, ops: seq<Operation>, n: nat, env: Env, view: Id -> MediaView,
    discovered: map<string, string>, p: Progress, f: TorBoxFile)
    requires IsRun(h, states, ops) && Agreement(h, states[0]) && n < |states|
    requires forall op :: op in ops && op.Removal? ==> LibraryRemoval.Normal(op.prefix)
    requires forall op :: op in ops && op.Sync? ==> SameParser(first, op.env)
    requires FaithfulEntries(first, states[0].db.entries) && SameParser(first, env)
    requires IsReusable(states[n].db, view, env.reusable)
    requires ReusableKept(env, p.claimed) && Reuses(env, p.files, f, discovered)
    ensures var row, url := env.reusable[Key(f)], PlaybackUrl(env, Key(f));
            var selected := SelectedIdentity(env, f.itemId, InfoHash(env, discovered, f));
            && Faithful(env, row)
            && (ReuseDecision(env, row, url).Keep? ==>
                  (Agrees(row, url, Keep(row), FreshDecision(env, f, selected)) <==> Stable(env, row, f, selected)))
            && (Stable(env, row, f, selected)
                || (selected.Some? && Complete(selected.value)
                    && (ValidEntry(EntryOf(row, url)) ==> SourcePrefix(EntryOf(row, url)) !in env.overrides)) ==>
                  SameOutcome(StepFile(env, discovered, p, f), FreshStep(env, discovered, p, f)))
  {
    hide *;
    assert Key(f) in env.reusable by { ReusedIsOffered(env, p.files, f, discovered); }
    OfferedIsFaithful(h, first, states, ops, n, env, view, Key(f));
    AcceptedRowReprocessesAlike(env, discovered, p, f);
  }

  lemma ReusedIsOffered(env: Env, files: Files, f: TorBoxFile, discovered: map<string, string>)
    requires Reuses(env, files, f, discovered)
    ensures Key(f) in env.reusable
  {
  }
}
