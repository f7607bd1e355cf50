/** Synchronizing twice, from the inputs: what was synced is found unchanged by way of rows, files and identity store. */
module SteadySync {
  import opened ClashFreedom
  import opened Common
  import opened IdentityInputs
  import opened IdentityRound
  import opened LibraryAgreement
  import opened LibraryFiles
  import opened LibraryPaths
  import opened NextRun
  import opened SecondSync
  import opened SeparateFiles
  import opened StoredIdentities
  import opened StrmSync
  import opened SyncDecisions
  import opened SyncOwnership
  import opened SyncRuns
  import opened SyncState
  import opened TorBoxFiles
  import MediaIdentity

  // ---------- Files ----------

  /** Ids, addresses, hashes and the version of the processing are as before. */
  ghost predicate SameSettings(env: Env, next: Env) {
    && SameAddresses(env, next) && next.contentHash == env.contentHash && next.fingerprint == env.fingerprint
    && next.torrentHashes == env.torrentHashes
  }

  lemma FinishedKeeps(env: Env, format: ManifestFormat, p: Progress, path: Path)
    requires Finished(env, format, p, false).Ok? && path != MANIFEST_PATH
    ensures Lookup(Finished(env, format, p, false).value.1, path) == Lookup(p.files, path)
  {
    hide PathsOf, Merged;
  }

  /** The playback file of a synced file is still there after manifest and stale files have been written and deleted. */
  lemma StillOnDisk(
    env: Env, format: ManifestFormat, batches: seq<Batch>, retained: set<string>, p: Progress, db: Db, s': System, x: Synced)
    requires Leads(env, format, batches, retained, p, db, s') && x in p.tally.synced && GeneratedPath(x.path)
    ensures Lookup(s'.files, x.path) == Lookup(p.files, x.path)
  {
    var stale := StalePaths(db, p.tally.synced, retained);
    assert x.path !in stale;
    assert x.path != MANIFEST_PATH;
    hide Finished, GeneratedPath, StalePaths, ManifestOf, IsListed, WithoutStale;
    StaleLeavesDisk(Finished(env, format, p, false).value.1, stale);
    FinishedKeeps(env, format, p, x.path);
  }

  lemma SameHash(env: Env, next: Env, discovered: map<string, string>, f: TorBoxFile)
    requires SameSettings(env, next)
    ensures InfoHash(next, discovered, f) == InfoHash(env, discovered, f)
    ensures PlaybackUrl(next, Key(f)) == PlaybackUrl(env, Key(f))
  {
  }

  /** Wherever the file of a synced row is listed, the row is its own. */
  lemma StemsWhereListed(env: Env, batches: seq<Batch>, synced: seq<Synced>, x: Synced, b: Batch)
    requires AllApart(env, Listing(batches)) && Drawn(env, Listing(batches), synced)
    requires x in synced && b in batches && x.file in b.files
    ensures Stems(env, Listed(b, x.file), x)
  {
    var l :| l in Listing(batches) && Stems(env, l, x);
    ListedIsInListing(batches, b, x.file);
    OneListing(env, Listing(batches), l, Listed(b, x.file));
    hide AllApart, Listing, Drawn, HashOf, PlaybackUrl;
  }

  lemma SyncedIsSameFile(env: Env, next: Env, files: Files, x: Synced, b: Batch)
    requires SameSettings(env, next) && Stems(env, Listed(b, x.file), x) && x.path !in next.unreadable
    requires Lookup(files, x.path) == Some(Content(PlaybackUrl(env, Key(x.file))))
    ensures SameFile(next, files, x, Discovered(b))
  {
    SameHash(env, next, Discovered(b), x.file);
    hide PlaybackUrl, InfoHash, Content;
  }

  lemma OwnedPlays(env: Env, p: Progress, x: Synced)
    requires Owned(env, p) && x in p.tally.synced
    ensures Lookup(p.files, x.path) == Some(Content(PlaybackUrl(env, Key(x.file))))
  {
    assert Plays(env, p.files, p.claimed, x);
  }

  // ---------- Identities ----------

  /** What is asked of a synced torrent file when the next run begins: nothing stronger than its binding is selected,
      its item is of its category, its row still makes an entry that is not excluded, and its file can be read. */
  ghost predicate Steady(
    next: Env, s': System, view: Id -> MediaView, store': MediaIdentity.Store, m: Maps, x: Synced)
  {
    var item := EntryOwner(s'.db, x.path);
    && x.file.kind == "torrents" && x.path !in next.unreadable && NotOutranked(m, store', x.file.itemId)
    && (item in store'.media ==> FitsCategory(store'.media[item], x.category))
    && (HasSource(s'.db, x.path) ==> ReuseDecision(next, RowOf(s'.db, x.path, view), PlaybackUrl(next, Key(x.file))).Keep?)
  }

  lemma SteadyIsKept(
    env: Env, next: Env, s': System, view: Id -> MediaView, store': MediaIdentity.Store, m: Maps, x: Synced, b: Batch)
    requires SameSettings(env, next) && Stems(env, Listed(b, x.file), x) && HasSource(s'.db, x.path)
    requires Lookup(s'.files, x.path) == Some(Content(PlaybackUrl(env, Key(x.file))))
    requires MediaIdentity.Inv(store') && Views(view, store') && SelectsFrom(next, m, store')
    requires Bound(store', SourceOf(x), EntryOwner(s'.db, x.path)) && Steady(next, s', view, store', m, x)
    ensures StillKept(next, s', view, x, b)
  {
    var item, hash := EntryOwner(s'.db, x.path), InfoHash(next, Discovered(b), x.file);
    hide MediaIdentity.Inv, Views, SelectsFrom, Bound, NotOutranked, FitsCategory, ReadAlike, SelectedIdentity, Content,
      SameSettings, Stems, SameFile, InfoHash, PlaybackUrl, ReuseDecision;
    SyncedIsSameFile(env, next, s'.files, x, b);
    BoundReadsAlike(store', view, next, m, x.file.itemId, hash, item, x.category);
  }

  // ---------- One sync, with rows and identities ----------

  /** A full sync: what it is given, and system and identity store before and after it. */
  datatype Round = Round(
    env: Env, format: ManifestFormat, batches: seq<Batch>, owners: Synced -> SyncState.Id, retained: set<string>,
    view: SyncState.Id -> MediaView, text: MediaIdentity.Text,
    before: System, store: MediaIdentity.Store, after: System, store': MediaIdentity.Store)

  ghost function SyncedIn(r: Round): seq<Synced> {
    SyncedBy(r.env, r.format, r.before.files, r.batches)
  }

  ghost predicate SystemStep(h: Hash, r: Round) {
    && Agreement(h, r.before)
    && Step(h, r.before, Sync(r.env, r.format, r.batches, false, r.owners, r.retained, r.view), r.after)
  }

  /** It completes, and the identity store is persisted along with the rows.  The files of each source belong to one
      item, and before it no source is bound to another, but perhaps weakly where its files are printed. */
  ghost predicate Completes(h: Hash, r: Round) {
    && SystemStep(h, r)
    && StoresWith(r.store, r.before.db, SyncedIn(r), r.owners, r.text, r.store', r.after.db)
    && OneOwner(r.before.db, r.owners, SyncedIn(r)) && OwnSources(r.before.db, r.store, r.owners, SyncedIn(r))
  }

  lemma StillLeads(before: Db, synced: seq<Synced>, retained: set<string>, after: Db, x: Synced)
    requires after.generated == before.generated - StalePaths(before, synced, retained) && after.entries == before.entries
    requires x in synced && Recorded(before, x)
    ensures EntryOwner(after, x.path) == EntryOwner(before, x.path) && HasSource(after, x.path)
  {
    assert x.path in PathsOf(synced);
    hide Retained, HashesOf;
  }

  lemma RecordedAt(db: Db, synced: seq<Synced>, x: Synced)
    requires RecordedUpTo(db, synced, |synced|) && x in synced
    ensures Recorded(db, x)
  {
    var i :| 0 <= i < |synced| && synced[i] == x;
    assert Recorded(db, synced[i]);
  }

  lemma LeadsAt(before: Db, db: Db, synced: seq<Synced>, owners: Synced -> SyncState.Id, x: Synced)
    requires LeadToOwners(before, db, synced, owners, |synced|) && x in synced
    ensures EntryOwner(db, x.path) == OwnerOf(before, owners, x)
  {
    var i :| 0 <= i < |synced| && synced[i] == x;
  }

  /** After a system step with separate files each synced file leads to the item that it was persisted with. */
  lemma SyncedLeads(h: Hash, r: Round, p: Progress, db: Db, x: Synced)
    requires Leads(r.env, r.format, r.batches, r.retained, p, db, r.after) && AllSeparate(p.tally.synced)
    requires PersistedFiles(r.before.db, p.tally.synced, r.owners) == Ok(db)
    requires DbOk(r.before.db) && PathsGenerated(p.tally.synced) && RecordedUpTo(r.before.db, p.tally.synced, 0)
    requires x in p.tally.synced
    ensures HasSource(r.after.db, x.path) && EntryOwner(r.after.db, x.path) == OwnerOf(r.before.db, r.owners, x)
  {
    var synced := p.tally.synced;
    assert synced[..|synced|] == synced;
    assert r.after.db.generated == db.generated - StalePaths(db, synced, r.retained) && r.after.db.entries == db.entries;
    hide *;
    PersistLeadsToOwners(r.before.db, synced, r.owners, |synced|);
    PersistRecordsUpTo(r.before.db, synced, |synced|, r.owners);
    RecordedAt(db, synced, x);
    LeadsAt(r.before.db, db, synced, r.owners, x);
    StillLeads(db, synced, r.retained, r.after.db, x);
  }

  lemma RoundLeads(h: Hash, r: Round) returns (p: Progress, db: Db)
    requires SystemStep(h, r)
    ensures UniquePaths(r.env.reusable) && RowsOk(r.env)
    ensures RunBatches(r.env, None, Running(Start(r.env, r.before.files)), r.batches) == Running(p)
    ensures Leads(r.env, r.format, r.batches, r.retained, p, db, r.after) && SyncedIn(r) == p.tally.synced
    ensures PersistedFiles(r.before.db, p.tally.synced, r.owners) == Ok(db) && r.after.db.entries == db.entries
    ensures DbOk(r.before.db) && PathsGenerated(p.tally.synced) && RecordedUpTo(r.before.db, p.tally.synced, 0)
  {
    hide Agreement, SyncApplied, RunBatches, Start, SyncedBy, DbOk, PathsGenerated, RecordedUpTo, PersistedFiles, StalePaths,
      Finished, WithoutStale, ManifestOf, IsListed, GeneratedPath, UniquePaths, RowsOk, IsReusable;
    AgreementHasDb(h, r.before);
    ReusableRows(r.before.db, r.view, r.env);
    p, db := FirstRunLeads(h, r.before, r.env, r.format, r.batches, r.owners, r.retained, r.view, r.after);
  }

  /** After a sync of separate files each leads to the item that it was persisted with, and its source is bound to it. */
  lemma SyncedIsBound(h: Hash, r: Round, x: Synced)
    requires Completes(h, r) && AllSeparate(SyncedIn(r)) && x in SyncedIn(r)
    ensures HasSource(r.after.db, x.path) && EntryOwner(r.after.db, x.path) == OwnerOf(r.before.db, r.owners, x)
    ensures Joined(r.store', r.after.db) && Bound(r.store', SourceOf(x), EntryOwner(r.after.db, x.path))
  {
    hide SystemStep, StoresWith, OneOwner, OwnSources, SyncedIn;
    var p, db := RoundLeads(h, r);
    assert Completes(h, r);
    hide *;
    SyncedLeads(h, r, p, db, x);
    CompletesStores(h, r);
    StoredSourcesAreOwn(r.store, r.before.db, SyncedIn(r), r.owners, r.text, r.store', r.after.db, x);
  }

  lemma CompletesStores(h: Hash, r: Round)
    requires Completes(h, r)
    ensures StoresWith(r.store, r.before.db, SyncedIn(r), r.owners, r.text, r.store', r.after.db)
    ensures OneOwner(r.before.db, r.owners, SyncedIn(r)) && OwnSources(r.before.db, r.store, r.owners, SyncedIn(r))
  {
  }

  /** So the item of a synced torrent file is read as the identity that the next run selects for it exactly when its
      category is that of the file, unless something stronger than the binding is selected. */
  lemma SyncedIsSelected(
    h: Hash, r: Round, view: SyncState.Id -> MediaView, next: Env, m: Maps, x: Synced, hash: Option<string>)
    requires Completes(h, r) && AllSeparate(SyncedIn(r)) && x in SyncedIn(r)
    requires Views(view, r.store') && SelectsFrom(next, m, r.store')
    requires x.file.kind == "torrents" && NotOutranked(m, r.store', x.file.itemId)
    ensures var item := EntryOwner(r.after.db, x.path);
            && item in r.store'.media
            && (ReadAlike(view(item), x.category, SelectedIdentity(next, x.file.itemId, hash)) <==>
                  FitsCategory(r.store'.media[item], x.category))
  {
    SyncedIsBound(h, r, x);
    hide Completes, AllSeparate, SyncedIn, Views, SelectsFrom, NotOutranked, EntryOwner, OwnerOf, Bound, MediaIdentity.Inv,
      FitsCategory, ReadAlike, SelectedIdentity;
    BoundReadsAlike(r.store', view, next, m, x.file.itemId, hash, EntryOwner(r.after.db, x.path), x.category);
  }

  // ---------- Twice ----------

  /** Conditions on what the sync is given, under which nothing that it lists can be taken for anything else. */
  ghost predicate PlainInputs(r: Round) {
    InjectiveIds(r.env) && Uncontended(r.env, r.batches) && AllApart(r.env, Listing(r.batches))
  }

  lemma PlainIsSeparate(h: Hash, r: Round)
    requires SystemStep(h, r) && PlainInputs(r)
    ensures AllSeparate(SyncedIn(r))
  {
    hide Uncontended, AllApart, Listing, InjectiveIds, AllSeparate;
    var p, db := RoundLeads(h, r);
    hide SystemStep, Leads, UniquePaths, RowsOk, SyncedBy, RunBatches, Start, PersistedFiles, DbOk, PathsGenerated, RecordedUpTo;
    UncontendedIsSeparate(r.env, r.format, r.before.files, r.batches);
  }

  /** From such inputs, with nothing assumed of what the run syncs: the next run reuses each synced file exactly when it
      is unchanged. */
  lemma PlainStepPreparesNext(
    h: Hash, r: Round, view: SyncState.Id -> MediaView, next: Env, files: Files, discovered: map<string, string>, x: Synced)
    requires SystemStep(h, r) && PlainInputs(r) && x in SyncedIn(r) && IsReusable(r.after.db, view, next.reusable)
    ensures HasSource(r.after.db, x.path)
    ensures Reuses(next, files, x.file, discovered) <==>
            Unchanged(next, files, x, view(EntryOwner(r.after.db, x.path)), discovered)
  {
    PlainIsSeparate(h, r);
    hide PlainInputs, AllSeparate, IsReusable, RunOutcome, SyncApplied, Agreement, Reuses, Unchanged, UniquePaths;
    var k :| 0 <= k < |SyncedIn(r)| && SyncedIn(r)[k] == x;
    FullStepPreparesNext(
      h, r.before, r.env, r.format, r.batches, r.owners, r.retained, r.view, r.after, view, next, files, discovered, k);
  }

  /** Every synced file is on disk afterwards, and wherever it is listed its row is its own. */
  lemma SyncedStays(h: Hash, r: Round, x: Synced)
    requires SystemStep(h, r) && PlainInputs(r) && x in SyncedIn(r)
    ensures Lookup(r.after.files, x.path) == Some(Content(PlaybackUrl(r.env, Key(x.file))))
    ensures forall b :: b in r.batches && x.file in b.files ==> Stems(r.env, Listed(b, x.file), x)
  {
    var p, db := RoundLeads(h, r);
    assert InjectiveIds(r.env) && Uncontended(r.env, r.batches) && AllApart(r.env, Listing(r.batches));
    hide *;
    UncontendedIsClashFree(r.env, None, r.before.files, r.batches);
    RunKeepsRunInv(r.env, r.before.files, None, r.batches);
    RunIsDrawn(r.env, r.before.files, r.batches);
    forall b | b in r.batches && x.file in b.files ensures Stems(r.env, Listed(b, x.file), x) {
      StemsWhereListed(r.env, r.batches, p.tally.synced, x, b);
    }
    GeneratedAt(p.tally.synced, x);
    StillOnDisk(r.env, r.format, r.batches, r.retained, p, db, r.after, x);
    RunInvOwns(r.env, p);
    OwnedPlays(r.env, p, x);
  }

  lemma GeneratedAt(synced: seq<Synced>, x: Synced)
    requires PathsGenerated(synced) && x in synced
    ensures GeneratedPath(x.path)
  {
  }

  lemma RunInvOwns(env: Env, p: Progress)
    requires RunInv(env, p)
    ensures Owned(env, p)
  {
  }

  lemma SteadyStaysKept(
    h: Hash, r: Round, view: SyncState.Id -> MediaView, next: Env, m: Maps, x: Synced, b: Batch)
    requires Completes(h, r) && PlainInputs(r) && x in SyncedIn(r) && b in r.batches && x.file in b.files
    requires SameSettings(r.env, next) && Views(view, r.store') && SelectsFrom(next, m, r.store')
    requires Steady(next, r.after, view, r.store', m, x)
    ensures StillKept(next, r.after, view, x, b)
  {
    assert SystemStep(h, r);
    hide *;
    PlainIsSeparate(h, r);
    SyncedIsBound(h, r, x);
    SyncedStays(h, r, x);
    JoinedHasInv(r.store', r.after.db);
    SteadyIsKept(r.env, next, r.after, view, r.store', m, x, b);
  }

  lemma JoinedHasInv(s: MediaIdentity.Store, db: Db)
    requires Joined(s, db)
    ensures MediaIdentity.Inv(s)
  {
  }

  /** What the first run skipped is skipped again. */
  ghost predicate SkipsAgain(r: Round, next: Env) {
    forall b, f :: b in r.batches && f in b.files ==>
      (exists x :: x in SyncedIn(r) && x.file == f) || Decide(next, r.after.files, f, Discovered(b)).Skip?
  }

  lemma SteadyIsUnchanged(h: Hash, r: Round, view: SyncState.Id -> MediaView, next: Env, m: Maps)
    requires Completes(h, r) && PlainInputs(r)
    requires SameSettings(r.env, next) && Views(view, r.store') && SelectsFrom(next, m, r.store')
    requires (forall x :: x in SyncedIn(r) ==> Steady(next, r.after, view, r.store', m, x)) && SkipsAgain(r, next)
    ensures NothingChanged(next, r.after, view, SyncedIn(r), r.batches)
  {
    hide Completes, PlainInputs, SameSettings, Views, SelectsFrom, Steady, SyncedIn, StillKept, Decide;
    forall x, b | x in SyncedIn(r) && b in r.batches && x.file in b.files ensures StillKept(next, r.after, view, x, b) {
      SteadyStaysKept(h, r, view, next, m, x, b);
    }
  }

  lemma {:induction false} ReusedStoreNothing(s: MediaIdentity.Store, synced: seq<Synced>, t: MediaIdentity.Text)
    requires MediaIdentity.Inv(s) && forall x :: x in synced ==> x.reused
    ensures StoredFiles(s, synced, t) == Ok(s)
  {
    hide MediaIdentity.Inv;
    if synced != [] {
      assert forall x :: x in Front(synced) ==> x in synced;
      ReusedStoreNothing(s, Front(synced), t);
      assert Last(synced) in synced;
    }
  }

  lemma RestrictedToAll(s: MediaIdentity.Store, kept: set<MediaIdentity.Id>)
    requires MediaIdentity.Inv(s) && forall m :: m in s.media ==> m in kept
    ensures MediaIdentity.Restricted(s, kept) == s
  {
    var s' := MediaIdentity.Restricted(s, kept);
    assert s'.media == s.media;
    assert s'.identities == s.identities;
    assert s'.aliases == s.aliases;
  }

  lemma SweptAreOwned(s: MediaIdentity.Store, db: Db)
    ensures forall m :: m in Swept(s, db).media ==> HasOwned(Swept(s, db), db, m)
  {
    forall m | m in Swept(s, db).media ensures HasOwned(Swept(s, db), db, m) {
      assert HasOwned(s, db, m);
    }
  }

  /** Sweeping twice is sweeping once. */
  lemma SweptTwice(s: MediaIdentity.Store, db: Db)
    requires Joined(s, db)
    ensures Swept(Swept(s, db), db) == Swept(s, db)
  {
    var swept := Swept(s, db);
    SweptKeepsJoined(s, db);
    SweptAreOwned(s, db);
    hide HasOwned, MediaIdentity.Inv, MediaIdentity.Restricted;
    RestrictedToAll(swept, set m | m in swept.media && HasOwned(swept, db, m));
  }

  lemma CompletesJoins(h: Hash, r: Round)
    requires Completes(h, r)
    ensures Joined(r.store', r.after.db) && Swept(r.store', r.after.db) == r.store'
  {
    assert SystemStep(h, r);
    CompletesStores(h, r);
    hide *;
    var p, db := RoundLeads(h, r);
    StoresSwept(r.store, r.before.db, SyncedIn(r), r.owners, r.text, r.store', r.after.db);
  }

  lemma StoresSwept(
    store: MediaIdentity.Store, db: Db, synced: seq<Synced>, owners: Synced -> SyncState.Id, t: MediaIdentity.Text,
    store': MediaIdentity.Store, db': Db)
    requires StoresWith(store, db, synced, owners, t, store', db')
    requires PersistedFiles(db, synced, owners).Ok? && db'.entries == PersistedFiles(db, synced, owners).value.entries
    ensures Joined(store', db') && Swept(store', db') == store'
  {
    hide MediaIdentity.Inv, StoredFiles, PersistedFiles, OwnersStored, Swept;
    var stored := StoredFiles(store, synced, t).value;
    PersistKeepsJoined(store, db, synced, owners, t);
    SweptKeepsJoined(stored, db');
    SweptTwice(stored, db');
  }

  /** Over the same listings, when every synced file is steady and what was skipped is skipped again, the second full
      sync reuses all that the first synced.  The files, the entries, the rows and the identity store stay exactly as
      they are. */
  lemma SteadySecondSync(
    h: Hash, r: Round, view: SyncState.Id -> MediaView, next: Env, m: Maps, nextOwners: Synced -> SyncState.Id)
    requires Completes(h, r) && PlainInputs(r)
    requires SameSettings(r.env, next) && Views(view, r.store') && SelectsFrom(next, m, r.store')
    requires IsReusable(r.after.db, view, next.reusable) && next.excluded == r.after.db.exclusions
    requires (forall x :: x in SyncedIn(r) ==> Steady(next, r.after, view, r.store', m, x)) && SkipsAgain(r, next)
    ensures UniquePaths(next.reusable) && MediaIdentity.Inv(r.store')
    ensures var applied := SyncApplied(r.after, next, r.format, r.batches, false, nextOwners, r.retained);
            && applied.Ok? && applied.value.files == r.after.files
            && applied.value.db == r.after.db.(exclusions := applied.value.db.exclusions)
    ensures var second := SyncedBy(next, r.format, r.after.files, r.batches);
            && (forall y :: y in second ==> y.reused) && PathsOf(second) == PathsOf(SyncedIn(r))
            && StoredFiles(r.store', second, r.text) == Ok(r.store')
            && Swept(r.store', r.after.db) == r.store'
  {
    SteadyIsUnchanged(h, r, view, next, m);
    PlainIsSeparate(h, r);
    assert SystemStep(h, r) && SameAddresses(r.env, next);
    assert SyncedIn(r) == SyncedBy(r.env, r.format, r.before.files, r.batches);
    CompletesJoins(h, r);
    JoinedHasInv(r.store', r.after.db);
    hide Completes, PlainInputs, SameSettings, Views, SelectsFrom, IsReusable, Steady, SkipsAgain, RunOutcome,
      SyncApplied, NothingChanged, AllSeparate, Joined, Swept, MediaIdentity.Inv, Agreement, Step, SameAddresses, PathsOf,
      StoredFiles, UniquePaths;
    SecondSyncChangesNothing(
      h, r.before, r.env, r.format, r.batches, r.owners, r.retained, r.view, r.after, view, next, nextOwners);
    ReusedStoreNothing(r.store', SyncedBy(next, r.format, r.after.files, r.batches), r.text);
  }
}
