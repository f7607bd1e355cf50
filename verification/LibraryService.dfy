/** The operations on the library: full sync, item sync and removal, each undone when it fails before its commit. */
module LibraryService {
  import opened Common
  import opened LibraryAgreement
  import opened LibraryFiles
  import opened LibraryPaths
  import opened LibraryRemoval
  import opened SqlLike
  import opened StrmSync
  import opened SyncDecisions
  import opened SyncRuns
  import opened SyncState
  import opened SyncStateTables

  class Service {
    const library: Library
    const session: Session

    constructor (library: Library, session: Session)
      ensures this.library == library && this.session == session
    {
      this.library, this.session := library, session;
    }

    /** What is on disk and what is committed. */
    ghost function State(): System
      reads library, session
    {
      System(library.files, session.committed)
    }

    /** No uncommitted work, as between two operations. */
    ghost predicate Clean()
      reads session
    {
      session.working == session.committed
    }

    /** Asks the provider, then runs the sync with the rows and exclusions that the database offers. */
    method GenerateFiles(
      settings: Env, format: ManifestFormat, journal: LibraryMutationJournal, reusable: map<SourceFileKey, Synced>,
      batches: seq<Batch>, partial: bool) returns (r: Result<SyncResult, Error>, env: Env)
      requires Clean() && journal.library == library && journal.Valid() && UniquePaths(reusable)
      modifies session`committed, library, journal
      ensures Clean() && session.committed == old(session.committed) && journal.Valid()
      ensures env == settings.(reusable := reusable, excluded := session.committed.exclusions)
      ensures var end := RunOutcome(env, format, None, partial, old(library.files), batches);
              match r
              case Ok(result) => end == Ok((result, library.files))
              case Raised(e) => (e == EffectFailed && library.faultIn == 0) || end == Raised(e)
    {
      hide RunOutcome, UniquePaths, Covers;
      env := settings.(reusable := reusable, excluded := session.working.exclusions);
      var o := library.Attempt();
      if o.Fail? {
        return Raised(o.error), env;
      }
      o := session.Commit(library);
      if o.Fail? {
        return Raised(o.error), env;
      }
      var sync := new TorBoxStrmSync(env, format, journal);
      r := sync.Run(batches, None, partial);
    }

    /** Drops exclusions that nothing matched, unless the run was partial or a lookup failed. */
    method ReconcileExclusions(result: SyncResult)
      modifies session`working
      ensures session.working == Reconciled(old(session.working), result)
    {
      if !result.partial && !HasLookupFailure(result.diagnostics) {
        var db := session.working;
        session.working := db.(exclusions := db.exclusions * result.observed);
      }
    }

    /** Persists a full result, deletes its stale files, and commits. */
    method PersistSync(journal: LibraryMutationJournal, result: SyncResult, owners: Synced -> Id, retained: set<string>)
      returns (o: Outcome<Error>)
      requires journal.library == library && journal.Valid()
      modifies session, library, journal
      ensures journal.Valid()
      ensures o.Fail? ==>
                && session.committed == old(session.committed)
                && ((o.error == EffectFailed && library.faultIn == 0)
                    || Persisted(old(session.working), result, owners, retained) == Raised(o.error))
      ensures o.Pass? ==>
                && Clean()
                && var end := Persisted(old(session.working), result, owners, retained);
                   && end.Ok?
                   && session.committed == Reconciled(end.value.0, result)
                   && library.files == WithoutStale(old(library.files), end.value.1)
    {
      hide Persisted, Reconciled, WithoutStale, Covers;
      var repository := new SyncLibraryStateRepository(session, library);
      var stale := repository.PersistResult(result, owners, retained);
      if stale.Raised? {
        return Fail(stale.error);
      }
      ReconcileExclusions(result);
      :- RemoveStaleFiles(journal, stale.value);
      :- session.Commit(library);
      return Pass;
    }

    /** A full sync: it completes as specified, or leaves files and committed tables as they were. */
    method ExecuteSync(
      settings: Env, format: ManifestFormat, configured: bool, batches: seq<Batch>, owners: Synced -> Id,
      retained: set<string>, view: Id -> MediaView) returns (r: Result<SyncResult, Error>, env: Env)
      requires Clean() && DbOk(session.committed)
      modifies session, library
      ensures Clean()
      ensures r.Raised? ==> State() == old(State())
      ensures r.Raised? ==>
                || (r.error == ConfigurationMissing && !configured)
                || (r.error == EffectFailed && library.faultIn == 0)
                || (UniquePaths(env.reusable)
                    && SyncApplied(old(State()), env, format, batches, false, owners, retained) == Raised(r.error))
      ensures r.Ok? ==>
                && env == settings.(reusable := env.reusable, excluded := env.excluded)
                && Step(settings.contentHash, old(State()), Sync(env, format, batches, false, owners, retained, view), State())
    {
      hide RunOutcome, Persisted, Reconciled, WithoutStale, DbOk, IsReusable, UniquePaths, RowsOk, Covers;
      env := settings;
      if !configured {
        return Raised(ConfigurationMissing), env;
      }
      var o := session.Commit(library);
      if o.Fail? {
        return Raised(o.error), env;
      }
      var repository := new SyncLibraryStateRepository(session, library);
      var reusable := repository.ReusableFiles(view);
      o := session.Commit(library);
      if o.Fail? {
        return Raised(o.error), env;
      }
      var journal := new LibraryMutationJournal(library);
      ReusableRows(session.committed, view, settings.(reusable := reusable));
      var generated, used := GenerateFiles(settings, format, journal, reusable, batches, false);
      env := used;
      if generated.Raised? {
        session.Rollback();
        journal.Restore();
        return Raised(generated.error), env;
      }
      o := PersistSync(journal, generated.value, owners, retained);
      if o.Fail? {
        session.Rollback();
        journal.Restore();
        return Raised(o.error), env;
      }
      r := generated;
    }

    /** The sync of one torrent: what it lists is persisted, nothing goes stale, and failures are undone alike. */
    method ExecuteItemSync(
      settings: Env, format: ManifestFormat, configured: bool, item: Option<Batch>, owners: Synced -> Id,
      view: Id -> MediaView) returns (r: Result<SyncResult, Error>, env: Env)
      requires Clean() && DbOk(session.committed)
      modifies session, library
      ensures Clean()
      ensures r.Raised? ==> State() == old(State())
      ensures r.Raised? ==>
                || (r.error == ConfigurationMissing && !configured)
                || (r.error == ItemMissing && item.None?)
                || (r.error == EffectFailed && library.faultIn == 0)
                || (item.Some? && UniquePaths(env.reusable)
                    && SyncApplied(old(State()), env, format, [item.value], true, owners, {}) == Raised(r.error))
      ensures r.Ok? ==>
                && item.Some?
                && env == settings.(reusable := env.reusable, excluded := env.excluded)
                && Step(settings.contentHash, old(State()), Sync(env, format, [item.value], true, owners, {}, view), State())
    {
      hide RunOutcome, Persisted, DbOk, IsReusable, UniquePaths, RowsOk, Covers;
      env := settings;
      if !configured {
        return Raised(ConfigurationMissing), env;
      }
      var repository := new SyncLibraryStateRepository(session, library);
      var reusable := repository.ReusableFiles(view);
      var o := session.Commit(library);
      if o.Fail? {
        return Raised(o.error), env;
      }
      var journal := new LibraryMutationJournal(library);
      if item.None? {
        session.Rollback();
        journal.Restore();
        return Raised(ItemMissing), env;
      }
      ReusableRows(session.committed, view, settings.(reusable := reusable));
      var generated, used := GenerateFiles(settings, format, journal, reusable, [item.value], true);
      env := used;
      if generated.Raised? {
        session.Rollback();
        journal.Restore();
        return Raised(generated.error), env;
      }
      PartialPersists(session.working, generated.value, env, format, old(library.files), [item.value], owners);
      var stale := repository.PersistResult(generated.value, owners, {});
      o := if stale.Raised? then Fail(stale.error) else Pass;
      if o.Pass? {
        o := session.Commit(library);
      }
      if o.Fail? {
        session.Rollback();
        journal.Restore();
        return Raised(o.error), env;
      }
      r := generated;
    }

    /** A partial run makes nothing stale and leaves the exclusions alone. */
    lemma PartialPersists(
      db: Db, result: SyncResult, env: Env, format: ManifestFormat, files: Files, batches: seq<Batch>, owners: Synced -> Id)
      requires UniquePaths(env.reusable)
      requires var run := RunOutcome(env, format, None, true, files, batches); run.Ok? && run.value.0 == result
      ensures result.partial
      ensures var end := Persisted(db, result, owners, {});
              end.Ok? ==> end.value.1 == {} && Reconciled(end.value.0, result) == end.value.0
      ensures forall after :: WithoutStale(after, {}) == after
    {
      hide RunBatches, PersistedFiles, StalePaths, PathsOf, Merged;
    }

    /** Removes what a prefix names: a refused or failed removal changes nothing; once it is committed, the rows
        and the staged files are gone from the library whatever happens after. */
    method RemoveLibraryMedia(category: Category, prefix: string, id: string) returns (o: Outcome<Error>, committed: bool)
      requires Clean()
      modifies session, library
      ensures Clean()
      ensures !committed ==> o.Fail? && State() == old(State())
      ensures committed ==> RemovalApplied(old(State()), prefix, State())
      ensures o.Pass? ==>
                && committed
                && library.files == old(library.files) - StagedPaths(old(library.files), Target(prefix))
      ensures o.Fail? ==>
                || (o.error == InvalidPrefix && !ValidPrefix(prefix, CategoryName(category)))
                || (o.error == QuarantineInUse && !Unused(old(library.files), id))
                || (o.error == EffectFailed && library.faultIn == 0)
      ensures !ValidPrefix(prefix, CategoryName(category)) ==> o == Fail(InvalidPrefix)
    {
      hide Target, GeneratedPath, Renamed, Excludes, Split, RemovalApplied, StagedPaths, Under, Unused, Visible,
        WithoutPrefix, Staged, WithoutQuarantine;
      committed := false;
      if !ValidPrefix(prefix, CategoryName(category)) {
        return Fail(InvalidPrefix), false;
      }
      TargetOfValid(prefix, CategoryName(category));
      o := session.Commit(library);
      if o.Fail? {
        return;
      }
      ghost var files := library.files;
      var staged := StageLibraryPrefixRemoval(library, prefix, id);
      if staged.Raised? {
        return Fail(staged.error), false;
      }
      var removal := staged.value;
      StagedFacts(files, Target(prefix), id);
      o := DeleteRows(prefix);
      if o.Fail? {
        session.Rollback();
        var restored := removal.Restore();
        return;
      }
      committed := true;
      CommittedRemoval(old(State()), prefix, id, State());
      o := library.Attempt();
      if o.Fail? {
        return;
      }
      o := removal.Finalize();
      CommittedRemoval(old(State()), prefix, id, State());
    }

    /** A staged removal can be taken back, and finalizing it removes the staged paths. */
    lemma StagedFacts(files: Files, target: Path, id: string)
      requires Visible(target) && (StagedPaths(files, target) != {} ==> Unused(files, id))
      ensures var staged := Staged(files, target, id);
              if StagedPaths(files, target) == {} then staged == files
              else
                && Under(staged, Payload(id)) != {} && Under(staged, target) == {}
                && Renamed(staged, Payload(id), target) == files
                && WithoutQuarantine(staged, id) == files - StagedPaths(files, target)
    {
      hide Renamed, Excludes, Moved, Visible, Payload, OperationRoot, Unused, WithoutQuarantine;
      if StagedPaths(files, target) != {} {
        StagingRoundTrip(files, target, id);
        StagedPlaces(files, target, id);
      }
    }

    /** Once the rows are gone, files outside the quarantine are those that were not staged. */
    lemma CommittedRemoval(s: System, prefix: string, id: string, s': System)
      requires Visible(Target(prefix)) && (StagedPaths(s.files, Target(prefix)) != {} ==> Unused(s.files, id))
      requires s'.db == WithoutPrefix(s.db, prefix)
      requires forall p :: !Excludes(OperationRoot(id), p) ==>
                 Lookup(s'.files, p) == Lookup(Staged(s.files, Target(prefix), id), p)
      ensures RemovalApplied(s, prefix, s')
    {
      hide WithoutPrefix, Target, Excludes, Renamed, StagedPaths, Visible, Unused, OperationRoot;
      forall p: Path | GeneratedPath(p)
        ensures Lookup(s'.files, p) == if p in StagedPaths(s.files, Target(prefix)) then None else Lookup(s.files, p)
      {
        assert p != "" && p[0] != '.';
        if Excludes(OperationRoot(id), p) {
          QuarantineIsHidden(id, p);
        }
        if StagedPaths(s.files, Target(prefix)) != {} {
          StagedLookup(s.files, Target(prefix), id, p);
        }
      }
    }

    /** Excludes the prefix, deletes the rows that its filter selects, and commits. */
    method DeleteRows(prefix: string) returns (o: Outcome<Error>)
      requires Clean()
      modifies session, library`faultIn
      ensures o.Fail? ==>
                session.committed == old(session.committed) && o.error == EffectFailed && library.faultIn == 0
      ensures o.Pass? ==> Clean() && session.committed == WithoutPrefix(old(session.committed), prefix)
    {
      hide PathMatchesPrefix;
      :- library.Attempt();
      var db := session.working;
      var matching := set p | p in db.generated && PathMatchesPrefix(prefix, p);
      session.working := db.(generated := db.generated - matching, exclusions := db.exclusions + {prefix});
      :- session.Commit(library);
      return Pass;
    }
  }
}
