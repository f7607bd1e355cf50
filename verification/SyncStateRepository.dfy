/** The repository's methods over a database session, each proved against the operation that specifies it. */
module SyncStateTables {
  import opened Common
  import opened LibraryFiles
  import opened StrmSync
  import opened SyncDecisions
  import opened SyncRuns
  import opened SyncState

  /** The working copy of the tables, and the copy that the last commit left. */
  class Session {
    var working: Db
    var committed: Db

    constructor (db: Db)
      ensures working == committed == db
    {
      working, committed := db, db;
    }

    /** A commit that raises leaves the committed copy as it was. */
    method Commit(library: Library) returns (o: Outcome<Error>)
      modifies `committed, library`faultIn
      ensures committed == if o.Pass? then working else old(committed)
      ensures o.Fail? ==> o.error == EffectFailed && library.faultIn == 0
    {
      o := library.Attempt();
      if o.Fail? {
        return;
      }
      committed := working;
      return Pass;
    }

    method Rollback()
      modifies `working
      ensures working == committed
    {
      working := committed;
    }
  }

  class SyncLibraryStateRepository {
    const session: Session
    const library: Library

    constructor (session: Session, library: Library)
      ensures this.session == session && this.library == library
    {
      this.session, this.library := session, library;
    }

    /** Tries the rules one after the other; a rule that several rows match raises. */
    method FindEntry(s: Synced) returns (r: Result<Option<Id>, Error>)
      ensures r == Found(session.working.entries, s)
    {
      hide Matches;
      for i := 0 to |Rules|
        invariant FoundBy(session.working.entries, Rules[i..], s) == Found(session.working.entries, s)
      {
        var ids := Candidates(session.working.entries, Rules[i], s);
        assert Rules[i..][1..] == Rules[i + 1..];
        if |ids| > 1 {
          return Raised(AmbiguousEntry);
        }
        if ids != {} {
          var id := Pick(ids);
          OnlyElement(ids, id, FoundBy(session.working.entries, Rules[i..], s).value.value);
          return Ok(Some(id));
        }
      }
      return Ok(None);
    }

    method Pick(ids: set<Id>) returns (id: Id)
      requires ids != {}
      ensures id in ids
    {
      id :| id in ids;
    }

    /** Updates the entry that is found, or inserts one; the unique indexes may refuse it. */
    method UpsertEntry(s: Synced, media: Id) returns (r: Result<Id, Error>)
      modifies session`working
      ensures var db := old(session.working);
              match Found(db.entries, s)
              case Raised(e) => r == Raised(e) && session.working == db
              case Ok(found) =>
                var id := if found.Some? then found.value else db.nextId;
                if Fits(db.entries, id, EntryRowOf(s, media))
                then r == Ok(id) && session.working == PutEntry(db, id, EntryRowOf(s, media))
                else r == Raised(ConstraintViolated) && session.working == db
    {
      hide Found, Fits;
      var found :- FindEntry(s);
      var db := session.working;
      var id := if found.Some? then found.value else db.nextId;
      if !Fits(db.entries, id, EntryRowOf(s, media)) {
        return Raised(ConstraintViolated);
      }
      session.working := PutEntry(db, id, EntryRowOf(s, media));
      return Ok(id);
    }

    /** Updates the row of the path, or inserts one: it leads to the entry with the hash and fingerprint of the file,
        every other row and table is as before, and the tables stay consistent when the entry exists. */
    method UpsertGenerated(s: Synced, id: Id)
      modifies session`working
      ensures Lookup(session.working.generated, s.path) == Some(GeneratedRow(id, s.contentHash, s.fingerprint))
      ensures forall p :: p != s.path ==> Lookup(session.working.generated, p) == Lookup(old(session.working).generated, p)
      ensures session.working == old(session.working).(generated := session.working.generated)
      ensures DbOk(old(session.working)) && id in session.working.entries && GeneratedPath(s.path) ==> DbOk(session.working)
    {
      hide EntriesOk, GeneratedPath;
      var db := session.working;
      session.working := db.(generated := db.generated[s.path := GeneratedRow(id, s.contentHash, s.fingerprint)]);
    }

    /** Deletes the rows that are neither current nor retained, and names their paths. */
    method RemoveStaleGeneratedFiles(synced: seq<Synced>, retained: set<string>) returns (stale: set<Path>)
      modifies session`working
      ensures stale == StalePaths(old(session.working), synced, retained)
      ensures session.working == old(session.working).(generated := old(session.working).generated - stale)
    {
      hide Retained, PathsOf, HashesOf;
      var db := session.working;
      var current := PathsOf(synced);
      var absent := retained - HashesOf(synced);
      var rows := db.generated.Keys;
      stale := {};
      while rows != {}
        invariant rows <= db.generated.Keys && session.working == db.(generated := db.generated - stale)
        invariant stale == set p | p in db.generated && p !in rows && p !in current && !Retained(db, p, absent)
        decreases |rows|
      {
        var p :| p in rows;
        rows := rows - {p};
        if p !in current && !Retained(db, p, absent) {
          stale := stale + {p};
          session.working := db.(generated := db.generated - stale);
        }
      }
    }

    /** Upserts every printed file, and after a full sync drops the stale rows. */
    method PersistResult(result: SyncResult, owners: Synced -> Id, retained: set<string>) returns (r: Result<set<Path>, Error>)
      modifies session`working, library`faultIn
      ensures var end := Persisted(old(session.working), result, owners, retained);
              match r
              case Ok(stale) => end == Ok((session.working, stale))
              case Raised(e) => (e == EffectFailed && library.faultIn == 0) || end == Raised(e)
    {
      hide PersistedFile, StalePaths;
      ghost var start := session.working;
      var synced := result.synced;
      for i := 0 to |synced|
        invariant PersistedFiles(start, synced[..i], owners) == Ok(session.working)
      {
        ghost var next := synced[..i + 1];
        assert Front(next) == synced[..i] && Last(next) == synced[i];
        if !synced[i].reused {
          var o := library.Attempt();
          if o.Fail? {
            return Raised(o.error);
          }
          var step := PersistFile(synced[i], owners(synced[i]));
          if step.Fail? {
            FailedStays(start, synced, owners, i + 1);
            return Raised(step.error);
          }
        }
      }
      assert synced[..|synced|] == synced;
      if result.partial {
        return Ok({});
      }
      var stale := RemoveStaleGeneratedFiles(synced, retained);
      return Ok(stale);
    }

    /** Afterwards the row of the file's path is its own, and consistent tables stay so. */
    method PersistFile(s: Synced, media: Id) returns (o: Outcome<Error>)
      modifies session`working
      ensures match PersistedFile(old(session.working), s, media)
              case Ok(db) => o == Pass && session.working == db
              case Raised(e) => o == Fail(e)
      ensures o.Pass? ==> Recorded(session.working, s)
      ensures o.Pass? && DbOk(old(session.working)) && GeneratedPath(s.path) ==> DbOk(session.working)
    {
      hide Found, Fits, DbOk, Recorded, GeneratedPath;
      PersistedFileIsRecorded(session.working, s, media);
      if DbOk(session.working) && GeneratedPath(s.path) {
        PersistedFileKeepsDb(session.working, s, media);
      }
      var id := UpsertEntry(s, media);
      if id.Raised? {
        return Fail(id.error);
      }
      ghost var between := session.working;
      UpsertGenerated(s, id.value);
      SameRows(session.working.generated, PutGenerated(between, s, id.value).generated);
      return Pass;
    }

    lemma SameRows(a: map<Path, GeneratedRow>, b: map<Path, GeneratedRow>)
      requires forall p :: Lookup(a, p) == Lookup(b, p)
      ensures a == b
    {
      forall p ensures p in a <==> p in b {
        assert Lookup(a, p) == Lookup(b, p);
      }
      forall p | p in a ensures a[p] == b[p] {
        assert Lookup(a, p) == Lookup(b, p);
      }
    }

    lemma {:induction false} FailedStays(db: Db, synced: seq<Synced>, owners: Synced -> Id, n: nat)
      requires n <= |synced| && PersistedFiles(db, synced[..n], owners).Raised?
      ensures PersistedFiles(db, synced, owners) == PersistedFiles(db, synced[..n], owners)
      decreases |synced|
    {
      if n == |synced| {
        assert synced[..n] == synced;
      } else {
        assert Front(synced)[..n] == synced[..n];
        FailedStays(db, Front(synced), owners, n);
      }
    }

    /** Collects a row for every source that has a generated file. */
    method ReusableFiles(view: Id -> MediaView) returns (reusable: map<SourceFileKey, Synced>)
      ensures IsReusable(session.working, view, reusable)
    {
      hide RowOf;
      var db := session.working;
      var rows := db.generated.Keys;
      reusable := map[];
      while rows != {}
        invariant rows <= db.generated.Keys
        invariant forall k :: k in reusable ==> ReusableRow(db, view, k, reusable[k])
        invariant forall p :: HasSource(db, p) && p !in rows ==> Key(RowOf(db, p, view).file) in reusable
        decreases |rows|
      {
        var p :| p in rows;
        rows := rows - {p};
        if HasSource(db, p) {
          RowPath(db, p, view);
          reusable := reusable[Key(RowOf(db, p, view).file) := RowOf(db, p, view)];
        }
      }
    }

    ghost predicate ReusableRow(db: Db, view: Id -> MediaView, k: SourceFileKey, row: Synced) {
      HasSource(db, row.path) && row == RowOf(db, row.path, view) && Key(row.file) == k
    }

    lemma RowPath(db: Db, p: Path, view: Id -> MediaView)
      requires HasSource(db, p)
      ensures RowOf(db, p, view).path == p
    {
    }
  }
}
