/** Persisting what a run synced: library entries, generated-file rows, and the pass over stale rows. */
module SyncState {
  import opened Common
  import opened LibraryFiles
  import opened LibraryPaths
  import opened StrmSync
  import opened SyncDecisions
  import opened SyncRuns
  import opened TorBoxFiles
  import MediaIdentity

  // ---------- Tables ----------

  type Id = nat

  /** An entry written by an older version may have no source file. */
  datatype EntryRow = EntryRow(
    opaqueId: string, media: Id, file: Option<TorBoxFile>, infoHash: Option<string>, category: Category,
    season: Option<int>, episode: Option<int>)

  datatype GeneratedRow = GeneratedRow(entry: Id, contentHash: string, fingerprint: Option<string>)

  datatype Db = Db(entries: map<Id, EntryRow>, generated: map<Path, GeneratedRow>, exclusions: set<string>, nextId: Id)

  /** The unique indexes on opaque ids and on source files. */
  predicate Apart(a: EntryRow, b: EntryRow) {
    a.opaqueId != b.opaqueId && (a.file.Some? && b.file.Some? ==> Key(a.file.value) != Key(b.file.value))
  }

  predicate Fits(entries: map<Id, EntryRow>, id: Id, row: EntryRow) {
    forall i :: i in entries && i != id ==> Apart(entries[i], row)
  }

  ghost predicate EntriesOk(entries: map<Id, EntryRow>) {
    forall i, j :: i in entries && j in entries && i != j ==> Apart(entries[i], entries[j])
  }

  ghost predicate DbOk(db: Db) {
    && EntriesOk(db.entries)
    && (forall i :: i in db.entries ==> i < db.nextId)
    && (forall p :: p in db.generated ==> db.generated[p].entry in db.entries && GeneratedPath(p))
  }

  // ---------- Finding the entry of a synced file ----------

  datatype Rule = SameOpaqueId | SameHashAndPath | SameHashNameAndSize

  predicate Matches(rule: Rule, row: EntryRow, s: Synced) {
    match rule
    case SameOpaqueId => row.opaqueId == s.entryId
    case SameHashAndPath =>
      s.infoHash.Some? && row.infoHash == s.infoHash && row.file.Some? && row.file.value.path == s.file.path
    case SameHashNameAndSize =>
      && s.infoHash.Some? && row.infoHash == s.infoHash && row.file.Some?
      && row.file.value.fileName == s.file.fileName && row.file.value.size == s.file.size
  }

  function Candidates(entries: map<Id, EntryRow>, rule: Rule, s: Synced): set<Id> {
    set i | i in entries && Matches(rule, entries[i], s)
  }

  ghost function FoundBy(entries: map<Id, EntryRow>, rules: seq<Rule>, s: Synced): (r: Result<Option<Id>, Error>)
    ensures r.Ok? && r.value.Some? ==> r.value.value in entries
  {
    if rules == [] then Ok(None)
    else
      var ids := Candidates(entries, rules[0], s);
      if |ids| > 1 then Raised(AmbiguousEntry)
      else if ids != {} then (var i :| i in ids; Ok(Some(i)))
      else FoundBy(entries, rules[1..], s)
  }

  const Rules := [SameOpaqueId, SameHashAndPath, SameHashNameAndSize]

  /** By opaque id, else by hash and path, else by hash, name and size; more than one row is an error. */
  ghost function Found(entries: map<Id, EntryRow>, s: Synced): (r: Result<Option<Id>, Error>)
    ensures r.Ok? && r.value.Some? ==> r.value.value in entries
  {
    FoundBy(entries, Rules, s)
  }

  // ---------- Specification ----------

  /** Every column is overwritten from the synced file. */
  function EntryRowOf(s: Synced, media: Id): EntryRow {
    EntryRow(s.entryId, media, Some(s.file), s.infoHash, s.category, s.season, s.episode)
  }

  function PutEntry(db: Db, id: Id, row: EntryRow): Db {
    db.(entries := db.entries[id := row], nextId := if id < db.nextId then db.nextId else id + 1)
  }

  function PutGenerated(db: Db, s: Synced, id: Id): Db {
    db.(generated := db.generated[s.path := GeneratedRow(id, s.contentHash, s.fingerprint)])
  }

  ghost function PersistedFile(db: Db, s: Synced, media: Id): Result<Db, Error> {
    match Found(db.entries, s)
    case Raised(e) => Raised(e)
    case Ok(found) =>
      var id := if found.Some? then found.value else db.nextId;
      if !Fits(db.entries, id, EntryRowOf(s, media)) then Raised(ConstraintViolated)
      else Ok(PutGenerated(PutEntry(db, id, EntryRowOf(s, media)), s, id))
  }

  /** Reused files are left as they are. */
  ghost function PersistedFiles(db: Db, synced: seq<Synced>, owners: Synced -> Id): Result<Db, Error> {
    if synced == [] then Ok(db)
    else
      var before :- PersistedFiles(db, Front(synced), owners);
      if Last(synced).reused then Ok(before) else PersistedFile(before, Last(synced), owners(Last(synced)))
  }

  function HashesOf(synced: seq<Synced>): set<string> {
    set s | s in synced && s.infoHash.Some? :: s.infoHash.value
  }

  /** A row is kept for the sake of a selected hash that no synced file carries. */
  predicate Retained(db: Db, p: Path, absent: set<string>) {
    && p in db.generated && db.generated[p].entry in db.entries
    && db.entries[db.generated[p].entry].infoHash.Some? && db.entries[db.generated[p].entry].infoHash.value in absent
  }

  function StalePaths(db: Db, synced: seq<Synced>, retained: set<string>): set<Path> {
    set p | p in db.generated && p !in PathsOf(synced) && !Retained(db, p, retained - HashesOf(synced))
  }

  ghost function Persisted(db: Db, result: SyncResult, owners: Synced -> Id, retained: set<string>)
    : Result<(Db, set<Path>), Error>
  {
    var after :- PersistedFiles(db, result.synced, owners);
    if result.partial then Ok((after, {}))
    else
      var stale := StalePaths(after, result.synced, retained);
      Ok((after.(generated := after.generated - stale), stale))
  }

  // ---------- What persisting keeps ----------

  lemma PersistedFileKeepsDb(db: Db, s: Synced, media: Id)
    requires DbOk(db) && GeneratedPath(s.path)
    ensures var r := PersistedFile(db, s, media);
            r.Ok? ==>
              && DbOk(r.value) && r.value.generated.Keys == db.generated.Keys + {s.path}
              && r.value.exclusions == db.exclusions
  {
    hide Found, GeneratedPath;
  }

  ghost predicate PathsGenerated(synced: seq<Synced>) {
    forall s :: s in synced ==> GeneratedPath(s.path)
  }

  lemma {:induction false} PersistedFilesKeepDb(db: Db, synced: seq<Synced>, owners: Synced -> Id)
    requires DbOk(db) && PathsGenerated(synced)
    ensures var r := PersistedFiles(db, synced, owners);
            r.Ok? ==>
              && DbOk(r.value) && r.value.generated.Keys == db.generated.Keys + PrintedPaths(synced)
              && r.value.exclusions == db.exclusions
  {
    hide DbOk, PersistedFile, GeneratedPath, PrintedPaths;
    if synced == [] {
      NothingPrinted();
    } else {
      assert forall s :: s in Front(synced) ==> s in synced;
      assert Last(synced) in synced;
      assert PathsGenerated(Front(synced)) && GeneratedPath(Last(synced).path);
      hide PathsGenerated;
      PersistedFilesKeepDb(db, Front(synced), owners);
      assert synced == Front(synced) + [Last(synced)];
      PathsOfOneMore(Front(synced), Last(synced));
      var before := PersistedFiles(db, Front(synced), owners);
      if before.Ok? && !Last(synced).reused {
        PersistedFileKeepsDb(before.value, Last(synced), owners(Last(synced)));
      }
    }
  }

  lemma NothingPrinted()
    ensures PrintedPaths([]) == {}
  {
  }

  /** The rows afterwards are those that were there and those just printed, less the stale ones; a partial
      result makes nothing stale, and a full one exactly what it neither synced nor must retain. */
  lemma PersistKeepsDb(db: Db, result: SyncResult, owners: Synced -> Id, retained: set<string>)
    requires DbOk(db) && PathsGenerated(result.synced)
    ensures var r := Persisted(db, result, owners, retained);
            r.Ok? ==>
              var (after, stale) := r.value;
              && DbOk(after) && after.exclusions == db.exclusions
              && after.generated.Keys == db.generated.Keys + PrintedPaths(result.synced) - stale
              && stale <= db.generated.Keys + PrintedPaths(result.synced)
              && stale !! PathsOf(result.synced)
              && (result.partial ==> stale == {})
  {
    hide PersistedFiles, GeneratedPath, PrintedPaths, EntriesOk, PathsGenerated, PathsOf, HashesOf, Retained;
    PersistedFilesKeepDb(db, result.synced, owners);
  }

  // ---------- Each printed file has its own row ----------

  /** The row of the path carries the file's hash and fingerprint, and leads to an entry that is the file's own. */
  ghost predicate Recorded(db: Db, x: Synced) {
    && x.path in db.generated && db.generated[x.path].entry in db.entries
    && db.generated[x.path] == GeneratedRow(db.generated[x.path].entry, x.contentHash, x.fingerprint)
    && var row := db.entries[db.generated[x.path].entry];
       row == EntryRowOf(x, row.media)
  }

  lemma PersistedFileIsRecorded(db: Db, s: Synced, media: Id)
    ensures var r := PersistedFile(db, s, media);
            r.Ok? ==> Recorded(r.value, s)
  {
    hide Found, Fits;
  }

  /** Another file stays recorded exactly when the entry found for this one is not the other's. */
  lemma RecordedUnlessTaken(db: Db, s: Synced, media: Id, x: Synced)
    requires DbOk(db) && Recorded(db, x) && x.path != s.path && Key(x.file) != Key(s.file)
    ensures var r := PersistedFile(db, s, media);
            r.Ok? ==> (Recorded(r.value, x) <==> Found(db.entries, s) != Ok(Some(db.generated[x.path].entry)))
  {
    hide Found, Fits, GeneratedPath, EntriesOk;
  }

  /** The lookups for one file may land on the entry of the other. */
  predicate Twins(x: Synced, s: Synced) {
    || x.entryId == s.entryId
    || (s.infoHash.Some? && x.infoHash == s.infoHash &&
        (x.file.path == s.file.path || (x.file.fileName == s.file.fileName && x.file.size == s.file.size)))
  }

  lemma {:induction false} FoundMatches(entries: map<Id, EntryRow>, rules: seq<Rule>, s: Synced)
    ensures var r := FoundBy(entries, rules, s);
            r.Ok? && r.value.Some? ==> exists rule :: Matches(rule, entries[r.value.value], s)
  {
    if rules != [] {
      var ids := Candidates(entries, rules[0], s);
      if |ids| <= 1 && ids != {} {
        var i := FoundBy(entries, rules, s).value.value;
        assert i in ids && Matches(rules[0], entries[i], s);
      } else if ids == {} {
        FoundMatches(entries, rules[1..], s);
      }
    }
  }

  lemma TakenOnlyByTwins(db: Db, s: Synced, x: Synced)
    requires Recorded(db, x) && Found(db.entries, s) == Ok(Some(db.generated[x.path].entry))
    ensures Twins(x, s)
  {
    FoundMatches(db.entries, Rules, s);
    hide FoundBy;
  }

  /** No two printed files share a path or a source, or are twins. */
  ghost predicate Separate(synced: seq<Synced>) {
    forall i, j :: 0 <= i < j < |synced| && !synced[i].reused && !synced[j].reused ==>
      synced[i].path != synced[j].path && Key(synced[i].file) != Key(synced[j].file) && !Twins(synced[i], synced[j])
  }

  ghost predicate AllRecorded(db: Db, synced: seq<Synced>) {
    forall x :: x in synced && !x.reused ==> Recorded(db, x)
  }

  lemma OtherStaysRecorded(db: Db, s: Synced, media: Id, x: Synced)
    requires DbOk(db) && Recorded(db, x) && x.path != s.path && Key(x.file) != Key(s.file) && !Twins(x, s)
    ensures var r := PersistedFile(db, s, media);
            r.Ok? ==> Recorded(r.value, x)
  {
    hide Found, PersistedFile, Twins, DbOk;
    RecordedUnlessTaken(db, s, media, x);
    if Found(db.entries, s) == Ok(Some(db.generated[x.path].entry)) {
      TakenOnlyByTwins(db, s, x);
    }
  }

  lemma StepRecords(db: Db, s: Synced, media: Id, before: seq<Synced>)
    requires DbOk(db) && AllRecorded(db, before)
    requires forall x :: x in before && !x.reused ==> x.path != s.path && Key(x.file) != Key(s.file) && !Twins(x, s)
    ensures var r := PersistedFile(db, s, media);
            r.Ok? ==> AllRecorded(r.value, before + [s])
  {
    hide DbOk, PersistedFile, Recorded, Twins, Found;
    var r := PersistedFile(db, s, media);
    if r.Ok? {
      PersistedFileIsRecorded(db, s, media);
      forall x | x in before + [s] && !x.reused ensures Recorded(r.value, x) {
        if x in before {
          OtherStaysRecorded(db, s, media, x);
        }
      }
    }
  }

  /** After persisting, the row of every printed file is its own: its hash, its fingerprint, its entry. */
  lemma {:induction false} PersistRecordsAll(db: Db, synced: seq<Synced>, owners: Synced -> Id)
    requires DbOk(db) && PathsGenerated(synced) && Separate(synced)
    ensures var r := PersistedFiles(db, synced, owners);
            r.Ok? ==> AllRecorded(r.value, synced)
  {
    hide DbOk, PersistedFile, GeneratedPath, Recorded, Twins;
    if synced != [] {
      assert forall s :: s in Front(synced) ==> s in synced;
      PersistRecordsAll(db, Front(synced), owners);
      PersistedFilesKeepDb(db, Front(synced), owners);
      var before, s := PersistedFiles(db, Front(synced), owners), Last(synced);
      assert synced == Front(synced) + [s];
      if before.Ok? && !s.reused {
        forall x | x in Front(synced) && !x.reused
          ensures x.path != s.path && Key(x.file) != Key(s.file) && !Twins(x, s)
        {
          var i :| 0 <= i < |synced| - 1 && synced[i] == x;
          assert synced[|synced| - 1] == s;
        }
        StepRecords(before.value, s, owners(s), Front(synced));
      }
    }
  }

  /** Where twins meet it fails: of two new files of one torrent with the same name and size in different
      folders, the second takes over the entry of the first, and both rows lead to the second. */
  lemma TwinTakesEntry(db: Db, a: Synced, b: Synced, media: Id)
    requires db.entries == map[] && db.generated == map[] && GeneratedPath(a.path) && GeneratedPath(b.path)
    requires a.entryId != b.entryId && a.path != b.path && Key(a.file) != Key(b.file) && a.file.path != b.file.path
    requires a.infoHash.Some? && a.infoHash == b.infoHash
    requires a.file.fileName == b.file.fileName && a.file.size == b.file.size
    ensures var first := PersistedFile(db, a, media);
            && first.Ok?
            && var second := PersistedFile(first.value, b, media);
               && second.Ok? && Recorded(second.value, b) && !Recorded(second.value, a)
               && second.value.generated[a.path].entry == second.value.generated[b.path].entry
  {
    EmptyFindsNothing(a);
    var first := PersistedFile(db, a, media);
    var row := EntryRowOf(a, media);
    var entries := map[db.nextId := row];
    assert first.Ok? && first.value.entries == entries;
    OneEntryFound(entries, db.nextId, b);
  }

  lemma EmptyFindsNothing(s: Synced)
    ensures Found(map[], s) == Ok(None)
  {
    forall rule ensures Candidates(map[], rule, s) == {} {
    }
    assert Rules[1..] == [SameHashAndPath, SameHashNameAndSize] && Rules[2..] == [SameHashNameAndSize] && Rules[3..] == [];
    assert Rules[1..][1..] == Rules[2..] && Rules[2..][1..] == Rules[3..];
    hide Candidates;
    assert FoundBy(map[], Rules[3..], s) == Ok(None);
    assert FoundBy(map[], Rules[2..], s) == Ok(None);
    assert FoundBy(map[], Rules[1..], s) == Ok(None);
  }

  lemma OneEntryFound(entries: map<Id, EntryRow>, id: Id, s: Synced)
    requires entries.Keys == {id} && Matches(SameHashNameAndSize, entries[id], s)
    requires !Matches(SameOpaqueId, entries[id], s) && !Matches(SameHashAndPath, entries[id], s)
    ensures Found(entries, s) == Ok(Some(id))
  {
    assert Candidates(entries, SameOpaqueId, s) == {} && Candidates(entries, SameHashAndPath, s) == {};
    assert Candidates(entries, SameHashNameAndSize, s) == {id};
    assert Rules[1..] == [SameHashAndPath, SameHashNameAndSize] && Rules[2..] == [SameHashNameAndSize];
    assert Rules[1..][1..] == Rules[2..];
    hide Candidates, Matches;
    assert FoundBy(entries, Rules[2..], s) == Ok(Some(id));
    assert FoundBy(entries, Rules[1..], s) == Ok(Some(id));
  }

  // ---------- Rows for the next run ----------

  /** Title, year, poster and TMDB id of a media item, as the join reads them. */
  datatype MediaView = MediaView(title: string, year: Option<int>, poster: Option<string>, tmdbId: Option<string>)

  function RowOf(db: Db, p: Path, view: Id -> MediaView): Synced
    requires p in db.generated && db.generated[p].entry in db.entries && db.entries[db.generated[p].entry].file.Some?
  {
    var g := db.generated[p];
    var e := db.entries[g.entry];
    var m := view(e.media);
    Synced(p, e.opaqueId, e.category, m.title, m.year, e.season, e.episode, e.file.value, e.infoHash, g.contentHash,
           m.tmdbId, m.poster, if e.file.value.folderName != "" then e.file.value.folderName else m.title,
           MediaIdentity.Fallback, None, None, g.fingerprint, false)
  }

  predicate HasSource(db: Db, p: Path) {
    p in db.generated && db.generated[p].entry in db.entries && db.entries[db.generated[p].entry].file.Some?
  }

  /** One row for every source that a generated file leads to; where several do, any of them. */
  ghost predicate IsReusable(db: Db, view: Id -> MediaView, reusable: map<SourceFileKey, Synced>) {
    && (forall k :: k in reusable ==>
          && HasSource(db, reusable[k].path) && reusable[k] == RowOf(db, reusable[k].path, view)
          && Key(reusable[k].file) == k)
    && (forall p :: HasSource(db, p) ==> Key(RowOf(db, p, view).file) in reusable)
  }

  /** The rows offered to a run have distinct paths, in the library, each under its own key. */
  lemma ReusableRows(db: Db, view: Id -> MediaView, env: Env)
    requires DbOk(db) && IsReusable(db, view, env.reusable)
    ensures UniquePaths(env.reusable) && RowsOk(env)
  {
    hide GeneratedPath, EntriesOk;
  }

  /** Entries whose season and episode are those of their own file name. */
  ghost predicate FaithfulEntries(env: Env, entries: map<Id, EntryRow>) {
    forall i :: i in entries && entries[i].file.Some? ==>
      var parsed := ParsedEntry(env, entries[i].file.value);
      ValidEntry(parsed) && entries[i].season == parsed.season && entries[i].episode == parsed.episode
  }

  lemma ReusableRowsAreFaithful(db: Db, view: Id -> MediaView, env: Env)
    requires IsReusable(db, view, env.reusable) && FaithfulEntries(env, db.entries)
    ensures forall k :: k in env.reusable ==> Faithful(env, env.reusable[k])
  {
    hide ValidEntry, ParsedEntry;
  }

  /** Persisting faithful rows keeps the entries faithful, so that reuse goes on agreeing with reprocessing. */
  lemma {:induction false} PersistKeepsFaithful(db: Db, synced: seq<Synced>, owners: Synced -> Id, env: Env)
    requires FaithfulEntries(env, db.entries) && forall s :: s in synced ==> RowOk(env, s)
    ensures var r := PersistedFiles(db, synced, owners);
            r.Ok? ==> FaithfulEntries(env, r.value.entries)
  {
    hide ValidEntry, ParsedEntry, Found, Fits, GeneratedPath;
    if synced != [] {
      assert forall s :: s in Front(synced) ==> s in synced;
      PersistKeepsFaithful(db, Front(synced), owners, env);
      assert Last(synced) in synced;
    }
  }

  // ---------- Reading back ----------

  /** A row that was written is read back as it was, with title, year, poster and TMDB id as the media item has them,
      under the name of its folder if it has one. */
  lemma PersistedIsReadBack(db: Db, x: Synced, media: Id, view: Id -> MediaView)
    ensures var r := PersistedFile(db, x, media);
            r.Ok? ==>
              && HasSource(r.value, x.path)
              && var row := RowOf(r.value, x.path, view);
                 && row.path == x.path && row.entryId == x.entryId && row.file == x.file && row.infoHash == x.infoHash
                 && row.category == x.category && row.season == x.season && row.episode == x.episode
                 && row.contentHash == x.contentHash && row.fingerprint == x.fingerprint && !row.reused
                 && row.title == view(media).title && row.year == view(media).year
                 && row.poster == view(media).poster && row.tmdbId == view(media).tmdbId
                 && (x.file.folderName != "" ==> row.sourceTitle == x.file.folderName)
                 && (x.file.folderName == "" ==> row.sourceTitle == view(media).title)
  {
    hide Found, Fits;
  }

  predicate HasId(row: EntryRow, s: Synced) {
    row.opaqueId == s.entryId
  }

  predicate HasPath(row: EntryRow, s: Synced) {
    s.infoHash.Some? && row.infoHash == s.infoHash && row.file.Some? && row.file.value.path == s.file.path
  }

  predicate HasNameAndSize(row: EntryRow, s: Synced) {
    && s.infoHash.Some? && row.infoHash == s.infoHash && row.file.Some?
    && row.file.value.fileName == s.file.fileName && row.file.value.size == s.file.size
  }

  /** The rows are looked up by id, and only if that finds none by hash and path, and only then by hash, name and size. */
  ghost predicate Sought(entries: map<Id, EntryRow>, s: Synced, i: Id) {
    && i in entries
    && if exists j :: j in entries && HasId(entries[j], s) then HasId(entries[i], s)
       else if exists j :: j in entries && HasPath(entries[j], s) then HasPath(entries[i], s)
       else HasNameAndSize(entries[i], s)
  }

  ghost predicate OnlyMatch(entries: map<Id, EntryRow>, rule: Rule, s: Synced, i: Id) {
    && i in entries && Matches(rule, entries[i], s)
    && forall j :: j in entries && Matches(rule, entries[j], s) ==> j == i
  }

  lemma FoundByOne(entries: map<Id, EntryRow>, rules: seq<Rule>, s: Synced)
    requires rules != []
    ensures var r := FoundBy(entries, rules, s);
            && ((exists i, j ::
                   i in entries && j in entries && i != j && Matches(rules[0], entries[i], s) && Matches(rules[0], entries[j], s)) ==>
                  r == Raised(AmbiguousEntry))
            && ((forall i :: i in entries ==> !Matches(rules[0], entries[i], s)) ==> r == FoundBy(entries, rules[1..], s))
            && (forall i: Id :: OnlyMatch(entries, rules[0], s, i) ==> r == Ok(Some(i)))
  {
    hide Matches;
    var ids := Candidates(entries, rules[0], s);
    if i, j :| i in entries && j in entries && i != j && Matches(rules[0], entries[i], s) && Matches(rules[0], entries[j], s) {
      SubsetSize({i, j}, ids);
    }
    forall i: Id | OnlyMatch(entries, rules[0], s, i) ensures FoundBy(entries, rules, s) == Ok(Some(i)) {
      assert ids == {i};
    }
    if forall i :: i in entries ==> !Matches(rules[0], entries[i], s) {
      assert ids == {};
    }
  }

  /** What is found among the rows sought: the only one, none, or an error for several. */
  ghost predicate FoundAmong(entries: map<Id, EntryRow>, sought: Id -> bool, r: Result<Option<Id>, Error>) {
    && (forall i :: i in entries && sought(i) && (forall j :: j in entries && sought(j) ==> j == i) ==> r == Ok(Some(i)))
    && ((forall i :: i in entries ==> !sought(i)) ==> r == Ok(None))
    && ((exists i, j :: i in entries && j in entries && i != j && sought(i) && sought(j)) ==> r == Raised(AmbiguousEntry))
  }

  lemma FoundAmongMatches(entries: map<Id, EntryRow>, rules: seq<Rule>, s: Synced, sought: Id -> bool)
    requires rules != [] && forall i :: i in entries ==> (sought(i) <==> Matches(rules[0], entries[i], s))
    requires (exists i :: i in entries && sought(i)) || rules[1..] == []
    ensures FoundAmong(entries, sought, FoundBy(entries, rules, s))
  {
    FoundByOne(entries, rules, s);
    assert FoundBy(entries, [], s) == Ok(None);
    hide Matches, FoundBy;
  }

  /** One row is found if just one is sought, none if none is, and several are an error. */
  lemma FoundIsSought(entries: map<Id, EntryRow>, s: Synced)
    ensures FoundAmong(entries, (i: Id) => Sought(entries, s, i), Found(entries, s))
  {
    assert Rules[1..][1..] == Rules[2..] && Rules[2..][1..] == [];
    var sought := (i: Id) => Sought(entries, s, i);
    if i :| i in entries && HasId(entries[i], s) {
      assert sought(i);
      FoundAmongMatches(entries, Rules, s, sought);
    } else if i :| i in entries && HasPath(entries[i], s) {
      assert sought(i);
      FoundByOne(entries, Rules, s);
      FoundAmongMatches(entries, Rules[1..], s, sought);
    } else {
      FoundByOne(entries, Rules, s);
      FoundByOne(entries, Rules[1..], s);
      FoundAmongMatches(entries, Rules[2..], s, sought);
    }
    hide FoundBy, Matches;
  }
}
