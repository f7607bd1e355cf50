/** The identity store beside the library rows: what persisting writes to it, and what the next run selects from it. */
module StoredIdentities {
  import opened Common
  import opened IdentityInputs
  import opened LibraryFiles
  import opened LibraryPaths
  import opened NextRun
  import opened SyncDecisions
  import opened SyncRuns
  import opened SyncState
  import opened TorBoxFiles
  import opened MediaIdentity

  // ---------- Writing ----------

  function ContentKindFor(c: Category): ContentKind {
    if c.Movies? then Movie else Series
  }

  function MediaWriteOf(x: Synced): MediaWrite {
    var kind := ContentKindFor(x.category);
    MediaWrite(kind, CategoryName(x.category), x.title, x.year, x.tmdbId, ProviderKindFor(kind), x.authority, x.confidence,
               x.resolverVersion, x.poster)
  }

  function BindingWriteOf(x: Synced): BindingWrite {
    BindingWrite(x.file.kind, Some(x.file.itemId), x.infoHash, if x.sourceTitle != "" then x.sourceTitle else x.title,
                 x.authority, x.confidence, x.resolverVersion)
  }

  function SourceOf(x: Synced): SourceKey {
    ItemKey(x.file.kind, x.file.itemId)
  }

  /** The media item of a printed file is found or made, and the file's sources are bound to it. */
  ghost function StoredFile(s: Store, x: Synced, t: Text): (r: Result<(Store, MediaIdentity.Id), Conflict>)
    requires MediaIdentity.Inv(s)
    ensures r.Ok? ==> MediaIdentity.Inv(r.value.0)
  {
    var (s1, m) := Ensured(s, MediaWriteOf(x), t);
    EnsuredKeepsInv(s, MediaWriteOf(x), t);
    BoundSourcesKeepInv(s1, m, BindingWriteOf(x), t);
    var (s2, conflict) := BoundSources(s1, m, BindingWriteOf(x), t);
    if conflict then Raised(AuthoritativeIdentityConflict) else Ok((s2, m))
  }

  /** Reused files are left as they are. */
  ghost function StoredFiles(s: Store, synced: seq<Synced>, t: Text): (r: Result<Store, Conflict>)
    requires MediaIdentity.Inv(s)
    ensures r.Ok? ==> MediaIdentity.Inv(r.value)
  {
    if synced == [] then Ok(s)
    else
      var before :- StoredFiles(s, Front(synced), t);
      if Last(synced).reused then Ok(before)
      else
        var after :- StoredFile(before, Last(synced), t);
        Ok(after.0)
  }

  /** The media item that each printed file is persisted with is the one found or made for it. */
  ghost predicate OwnersStored(s: Store, synced: seq<Synced>, owners: Synced -> SyncState.Id, t: Text)
    requires MediaIdentity.Inv(s)
  {
    synced != [] ==>
      && OwnersStored(s, Front(synced), owners, t)
      && var before := StoredFiles(s, Front(synced), t);
         !Last(synced).reused && before.Ok? && StoredFile(before.value, Last(synced), t).Ok? ==>
           owners(Last(synced)) == StoredFile(before.value, Last(synced), t).value.1
  }

  // ---------- Whose a source is ----------

  ghost function BindingOf(s: Store, key: SourceKey): Option<Binding> {
    if BindingRow(s, key).Some? then Some(s.bindings[BindingRow(s, key).value]) else None
  }

  lemma BindingIsUnique(s: Store, key: SourceKey, r: MediaIdentity.Id)
    requires BindingsOk(s.media, s.bindings) && BindingMatches(s, r, key)
    ensures BindingOf(s, key) == Some(s.bindings[r])
  {
  }

  lemma SameBinding(s: Store, s': Store, key: SourceKey)
    requires BindingsOk(s.media, s.bindings)
    requires forall r :: BindingMatches(s, r, key) ==> BindingMatches(s', r, key) && s'.bindings[r] == s.bindings[r]
    requires forall r :: BindingMatches(s', r, key) ==> BindingMatches(s, r, key)
    ensures BindingOf(s', key) == BindingOf(s, key)
  {
  }

  predicate Binds(b: Option<Binding>) {
    b.Some? && b.value.evidence.authoritative
  }

  /** After a write the source has the owner it had, if its binding is authoritative, and the one written otherwise; its
      binding is authoritative if it was or the write is. */
  predicate Taken(before: Option<Binding>, after: Option<Binding>, m: MediaIdentity.Id, authoritative: bool) {
    && after.Some?
    && after.value.media == (if Binds(before) then before.value.media else m)
    && after.value.evidence.authoritative == (Binds(before) || authoritative)
  }

  /** A write changes the one row of its key, or adds it. */
  lemma BoundKeyRow(s: Store, m: MediaIdentity.Id, key: SourceKey, e: Evidence) returns (r: MediaIdentity.Id, after: Binding)
    requires MediaIdentity.Inv(s) && BoundKey(s, m, key, e).Ok?
    ensures BoundKey(s, m, key, e).value.bindings == s.bindings[r := after] && after.key == key
    ensures r in s.bindings ==> BindingOf(s, key) == Some(s.bindings[r])
    ensures r !in s.bindings ==> BindingOf(s, key).None?
    ensures Taken(BindingOf(s, key), Some(after), m, e.authoritative)
  {
    hide IdentitiesOk, MediaIdentity.EntriesOk, AliasesOk;
    var row := BindingRow(s, key);
    r := if row.Some? then row.value else s.nextId;
    after := BoundKey(s, m, key, e).value.bindings[r];
    if row.Some? {
      assert s.bindings[r := s.bindings[r]] == s.bindings;
    }
  }

  lemma BoundKeyTakes(s: Store, m: MediaIdentity.Id, key: SourceKey, e: Evidence, other: SourceKey)
    requires MediaIdentity.Inv(s) && m in s.media && Honest(e) && BoundKey(s, m, key, e).Ok?
    ensures var s' := BoundKey(s, m, key, e).value;
            && Taken(BindingOf(s, key), BindingOf(s', key), m, e.authoritative)
            && (other != key ==> BindingOf(s', other) == BindingOf(s, other))
  {
    var r, after := BoundKeyRow(s, m, key, e);
    BoundKeyKeepsInv(s, m, key, e);
    BindingsAreOk(s);
    var s' := BoundKey(s, m, key, e).value;
    BindingsAreOk(s');
    hide MediaIdentity.Inv, BoundKey, BindingOf, BindingsOk;
    assert BindingMatches(s', r, key);
    BindingIsUnique(s', key, r);
    if other != key {
      if r in s.bindings {
        assert s.bindings[r].key == key by { BindingHasKey(s, key); }
      }
      SameBinding(s, s', other);
    }
  }

  lemma BindingHasKey(s: Store, key: SourceKey)
    ensures BindingOf(s, key).Some? ==> BindingOf(s, key).value.key == key
  {
  }

  lemma StoredFileTakes(s: Store, x: Synced, t: Text, other: SourceKey)
    requires MediaIdentity.Inv(s) && StoredFile(s, x, t).Ok? && other.ItemKey?
    ensures var (s', m) := StoredFile(s, x, t).value;
            && Taken(BindingOf(s, SourceOf(x)), BindingOf(s', SourceOf(x)), m, x.authority.Authoritative())
            && (other != SourceOf(x) ==> BindingOf(s', other) == BindingOf(s, other))
  {
    var w := MediaWriteOf(x);
    var (s1, m) := Ensured(s, w, t);
    EnsuredKeepsInv(s, w, t);
    EnsuredKeepsAll(s, w, t);
    BindingsAreOk(s);
    SameBinding(s, s1, SourceOf(x));
    SameBinding(s, s1, other);
    BoundSourcesTake(s1, m, x, t, other);
    hide MediaIdentity.Inv, Ensured, BoundSources, BindingOf;
  }

  lemma BindingsAreOk(s: Store)
    requires MediaIdentity.Inv(s)
    ensures BindingsOk(s.media, s.bindings)
  {
  }

  lemma BoundSourcesTake(s: Store, m: MediaIdentity.Id, x: Synced, t: Text, other: SourceKey)
    requires MediaIdentity.Inv(s) && m in s.media && other.ItemKey? && !BoundSources(s, m, BindingWriteOf(x), t).1
    ensures var s' := BoundSources(s, m, BindingWriteOf(x), t).0;
            && Taken(BindingOf(s, SourceOf(x)), BindingOf(s', SourceOf(x)), m, x.authority.Authoritative())
            && (other != SourceOf(x) ==> BindingOf(s', other) == BindingOf(s, other))
  {
    hide MediaIdentity.Inv, BoundKey, BindingOf;
    var w := BindingWriteOf(x);
    var e, hash := EvidenceOf(w.authority, w.confidence, w.resolverVersion), NormalizedHash(w, t);
    BoundKeyTakes(s, m, SourceOf(x), e, other);
    BoundKeyKeepsInv(s, m, SourceOf(x), e);
    var s1 := BoundKey(s, m, SourceOf(x), e).value;
    var s2 := if hash.Some? then BoundKey(s1, m, HashKey(hash.value), e).value else s1;
    if hash.Some? {
      BoundKeyTakes(s1, m, HashKey(hash.value), e, other);
      BoundKeyTakes(s1, m, HashKey(hash.value), e, SourceOf(x));
      BoundKeyKeepsInv(s1, m, HashKey(hash.value), e);
    }
    BindingsAreOk(s2);
    var s' := BoundSources(s, m, w, t).0;
    SameBinding(s2, s', other);
    SameBinding(s2, s', SourceOf(x));
  }

  /** The well-formed hash of a printed file is bound like its item, and an alias of the name that it was found under added. */
  lemma HashIsTaken(s: Store, x: Synced, t: Text)
    requires MediaIdentity.Inv(s) && StoredFile(s, x, t).Ok? && x.infoHash.Some? && t.infoHash(x.infoHash.value).Some?
    ensures var (s', m) := StoredFile(s, x, t).value;
            var key := HashKey(t.infoHash(x.infoHash.value).value);
            && Taken(BindingOf(s, key), BindingOf(s', key), m, x.authority.Authoritative())
            && (x.sourceTitle != "" && t.normalize(x.sourceTitle) != "" ==> (m, t.normalize(x.sourceTitle)) in s'.aliases)
  {
    var w, b := MediaWriteOf(x), BindingWriteOf(x);
    var (s1, m) := Ensured(s, w, t);
    EnsuredKeepsInv(s, w, t);
    EnsuredKeepsAll(s, w, t);
    BindingsAreOk(s);
    var e, key := EvidenceOf(b.authority, b.confidence, b.resolverVersion), HashKey(t.infoHash(x.infoHash.value).value);
    SameBinding(s, s1, key);
    hide MediaIdentity.Inv, Ensured, BoundKey, BindingOf, BindingsOk;
    var s2 := BoundKey(s1, m, SourceOf(x), e).value;
    BoundKeyTakes(s1, m, SourceOf(x), e, key);
    BoundKeyKeepsInv(s1, m, SourceOf(x), e);
    var s3 := BoundKey(s2, m, key, e).value;
    BoundKeyTakes(s2, m, key, e, key);
    BoundKeyKeepsInv(s2, m, key, e);
    BindingsAreOk(s3);
    SameBinding(s3, StoredFile(s, x, t).value.0, key);
  }

  // ---------- Rows and their items ----------

  /** The media item of the entry that a path leads to. */
  function EntryOwner(db: Db, p: Path): SyncState.Id {
    if p in db.generated && db.generated[p].entry in db.entries then db.entries[db.generated[p].entry].media else 0
  }

  /** The item of a synced file: the one it is persisted with, or for a reused one that of its row. */
  function OwnerOf(db: Db, owners: Synced -> SyncState.Id, x: Synced): SyncState.Id {
    if x.reused then EntryOwner(db, x.path) else owners(x)
  }

  lemma OtherKeepsRow(db: Db, s: Synced, media: SyncState.Id, x: Synced)
    requires DbOk(db) && Recorded(db, x) && x.path != s.path && Key(x.file) != Key(s.file) && !Twins(x, s)
    ensures var r := PersistedFile(db, s, media);
            r.Ok? ==> EntryOwner(r.value, x.path) == EntryOwner(db, x.path)
  {
    hide Found, Fits, Twins, SyncState.EntriesOk;
    if Found(db.entries, s) == Ok(Some(db.generated[x.path].entry)) {
      TakenOnlyByTwins(db, s, x);
    }
  }

  lemma PersistedWithOwner(db: Db, x: Synced, media: SyncState.Id)
    ensures var r := PersistedFile(db, x, media);
            r.Ok? ==> EntryOwner(r.value, x.path) == media
  {
    hide Found, Fits;
  }

  /** The files reused, and those printed among the first `n`, lead to the entries of their items. */
  ghost predicate LeadToOwners(before: Db, db: Db, all: seq<Synced>, owners: Synced -> SyncState.Id, n: nat) {
    forall i :: 0 <= i < |all| && (all[i].reused || i < n) ==> EntryOwner(db, all[i].path) == OwnerOf(before, owners, all[i])
  }

  lemma StepLeadsToOwners(before: Db, db: Db, all: seq<Synced>, owners: Synced -> SyncState.Id, n: nat)
    requires DbOk(db) && AllSeparate(all) && RecordedUpTo(db, all, n) && n < |all| && !all[n].reused
    requires LeadToOwners(before, db, all, owners, n)
    ensures var r := PersistedFile(db, all[n], owners(all[n]));
            r.Ok? ==> LeadToOwners(before, r.value, all, owners, n + 1)
  {
    hide DbOk, PersistedFile, Recorded, Twins, EntryOwner;
    var r := PersistedFile(db, all[n], owners(all[n]));
    PersistedWithOwner(db, all[n], owners(all[n]));
    if r.Ok? {
      forall i | 0 <= i < |all| && (all[i].reused || i < n + 1)
        ensures EntryOwner(r.value, all[i].path) == OwnerOf(before, owners, all[i])
      {
        if i != n {
          OtherKeepsRow(db, all[n], owners(all[n]), all[i]);
        }
      }
    }
  }

  lemma {:induction false} PersistLeadsToOwners(db: Db, all: seq<Synced>, owners: Synced -> SyncState.Id, n: nat)
    requires DbOk(db) && PathsGenerated(all) && AllSeparate(all) && RecordedUpTo(db, all, 0) && n <= |all|
    ensures var r := PersistedFiles(db, all[..n], owners);
            r.Ok? ==> LeadToOwners(db, r.value, all, owners, n)
  {
    hide DbOk, PersistedFile, Recorded, Twins, GeneratedPath, AllSeparate, EntryOwner, RecordedUpTo;
    if n > 0 {
      assert Front(all[..n]) == all[..n - 1] && Last(all[..n]) == all[n - 1];
      PersistLeadsToOwners(db, all, owners, n - 1);
      PersistRecordsUpTo(db, all, n - 1, owners);
      assert forall s :: s in all[..n - 1] ==> s in all;
      PersistedFilesKeepDb(db, all[..n - 1], owners);
      var before := PersistedFiles(db, all[..n - 1], owners);
      if before.Ok? && !all[n - 1].reused {
        StepLeadsToOwners(db, before.value, all, owners, n - 1);
      }
    }
  }

  // ---------- The write that decides ----------

  /** Of the printed files of a source, the first whose identity is authoritative, or else the last. */
  function Decider(synced: seq<Synced>, key: SourceKey): (d: Option<Synced>)
    ensures d.Some? ==> d.value in synced && !d.value.reused && SourceOf(d.value) == key
    ensures d.None? ==> forall x :: x in synced && !x.reused ==> SourceOf(x) != key
  {
    if synced == [] then None
    else
      var before, y := Decider(Front(synced), key), Last(synced);
      assert synced == Front(synced) + [y];
      if y.reused || SourceOf(y) != key || (before.Some? && before.value.authority.Authoritative()) then before else Some(y)
  }

  /** What binds a source in the end: a binding that was authoritative before, or else the file that decides. */
  ghost predicate DecidedBy(s: Store, s': Store, synced: seq<Synced>, owners: Synced -> SyncState.Id, key: SourceKey) {
    var b, b', d := BindingOf(s, key), BindingOf(s', key), Decider(synced, key);
    && (d.None? ==> b' == b)
    && (d.Some? && Binds(b) ==> Binds(b') && b'.value.media == b.value.media)
    && (d.Some? && !Binds(b) ==>
          b'.Some? && b'.value.media == owners(d.value)
          && b'.value.evidence.authoritative == d.value.authority.Authoritative())
  }

  lemma {:induction false} DeciderOwns(
    s: Store, synced: seq<Synced>, owners: Synced -> SyncState.Id, t: Text, key: SourceKey)
    requires MediaIdentity.Inv(s) && OwnersStored(s, synced, owners, t) && key.ItemKey?
    ensures var r := StoredFiles(s, synced, t);
            r.Ok? ==> DecidedBy(s, r.value, synced, owners, key)
  {
    hide MediaIdentity.Inv, StoredFile, BindingOf;
    if synced != [] {
      DeciderOwns(s, Front(synced), owners, t, key);
      var before, y := StoredFiles(s, Front(synced), t), Last(synced);
      if before.Ok? && !y.reused && StoredFile(before.value, y, t).Ok? {
        StoredFileTakes(before.value, y, t, key);
      }
    }
  }

  /** So a printed file's source ends up with the file's item exactly when an authoritative binding was there for that
      item, or else the file that decides has the same item. */
  lemma PrintedSourceIsOwn(s: Store, synced: seq<Synced>, owners: Synced -> SyncState.Id, t: Text, x: Synced)
    requires MediaIdentity.Inv(s) && OwnersStored(s, synced, owners, t) && StoredFiles(s, synced, t).Ok?
    requires x in synced && !x.reused
    ensures var b, d := BindingOf(s, SourceOf(x)), Decider(synced, SourceOf(x));
            && d.Some?
            && (Bound(StoredFiles(s, synced, t).value, SourceOf(x), owners(x)) <==>
                  owners(x) == if Binds(b) then b.value.media else owners(d.value))
  {
    hide MediaIdentity.Inv, StoredFiles, OwnersStored, BindingOf;
    DeciderOwns(s, synced, owners, t, SourceOf(x));
  }

  // ---------- Sources stay with the items of their files ----------

  /** All files of one source belong to one item. */
  ghost predicate OneOwner(db: Db, owners: Synced -> SyncState.Id, synced: seq<Synced>) {
    forall x, y :: x in synced && y in synced && SourceOf(x) == SourceOf(y) ==> OwnerOf(db, owners, x) == OwnerOf(db, owners, y)
  }

  ghost predicate Bound(s: Store, key: SourceKey, m: SyncState.Id) {
    BindingOf(s, key).Some? && BindingOf(s, key).value.media == m
  }

  /** Before the files are written: the source of a reused one is bound to its item, and that of a printed one not
      authoritatively to another. */
  ghost predicate OwnSources(db: Db, s: Store, owners: Synced -> SyncState.Id, synced: seq<Synced>) {
    forall x :: x in synced ==>
      if x.reused || Binds(BindingOf(s, SourceOf(x))) then Bound(s, SourceOf(x), OwnerOf(db, owners, x)) else true
  }

  /** Then afterwards every source is bound to the item of its files. */
  lemma SourcesFollow(db: Db, s: Store, synced: seq<Synced>, owners: Synced -> SyncState.Id, t: Text)
    requires MediaIdentity.Inv(s) && OwnersStored(s, synced, owners, t) && StoredFiles(s, synced, t).Ok?
    requires OneOwner(db, owners, synced) && OwnSources(db, s, owners, synced)
    ensures forall x :: x in synced ==> Bound(StoredFiles(s, synced, t).value, SourceOf(x), OwnerOf(db, owners, x))
  {
    hide MediaIdentity.Inv, StoredFiles, OwnersStored, BindingOf, EntryOwner;
    forall x | x in synced ensures Bound(StoredFiles(s, synced, t).value, SourceOf(x), OwnerOf(db, owners, x)) {
      DeciderOwns(s, synced, owners, t, SourceOf(x));
      var d := Decider(synced, SourceOf(x));
      if d.Some? {
        assert OwnerOf(db, owners, d.value) == OwnerOf(db, owners, x) == owners(d.value);
      }
    }
  }

  // ---------- Items are there ----------

  /** The rows of the library refer to items of the store; entries stand in the library's own table. */
  ghost predicate Joined(s: Store, db: Db) {
    MediaIdentity.Inv(s) && s.entries == map[] && forall i :: i in db.entries ==> db.entries[i].media in s.media
  }

  lemma StoredFileKeepsItems(s: Store, x: Synced, t: Text)
    requires MediaIdentity.Inv(s) && StoredFile(s, x, t).Ok?
    ensures var (s', m) := StoredFile(s, x, t).value;
            s.media.Keys <= s'.media.Keys && m in s'.media && s'.entries == s.entries
  {
    var w := MediaWriteOf(x);
    var (s1, m) := Ensured(s, w, t);
    EnsuredKeepsInv(s, w, t);
    EnsuredKeepsAll(s, w, t);
    BoundSourcesKeepMedia(s1, m, BindingWriteOf(x), t);
    BoundSourcesKeepEntries(s1, m, BindingWriteOf(x), t);
    hide MediaIdentity.Inv, Ensured, BoundSources;
    forall i | i in s.media ensures i in s1.media {
      EnsuredKeepsMedia(s, w, t, i);
    }
  }

  lemma BoundKeyKeepsEntries(s: Store, m: MediaIdentity.Id, key: SourceKey, e: Evidence)
    ensures BoundKey(s, m, key, e).Ok? ==> BoundKey(s, m, key, e).value.entries == s.entries
  {
    hide BindingRow;
  }

  lemma BoundSourcesKeepEntries(s: Store, m: MediaIdentity.Id, w: BindingWrite, t: Text)
    ensures BoundSources(s, m, w, t).0.entries == s.entries
  {
    hide BoundKey;
    var e, hash := EvidenceOf(w.authority, w.confidence, w.resolverVersion), NormalizedHash(w, t);
    if w.itemId.Some? {
      BoundKeyKeepsEntries(s, m, ItemKey(w.sourceKind, w.itemId.value), e);
    }
    var first := if w.itemId.Some? then BoundKey(s, m, ItemKey(w.sourceKind, w.itemId.value), e) else Ok(s);
    if first.Ok? && hash.Some? {
      BoundKeyKeepsEntries(first.value, m, HashKey(hash.value), e);
    }
  }

  lemma StepKeepsJoined(s: Store, db: Db, x: Synced, t: Text)
    requires Joined(s, db) && StoredFile(s, x, t).Ok?
    ensures var (s', m) := StoredFile(s, x, t).value;
            var r := PersistedFile(db, x, m);
            r.Ok? ==> Joined(s', r.value)
  {
    StoredFileKeepsItems(s, x, t);
    hide MediaIdentity.Inv, StoredFile, Found, Fits;
  }

  lemma {:induction false} PersistKeepsJoined(s: Store, db: Db, synced: seq<Synced>, owners: Synced -> SyncState.Id, t: Text)
    requires Joined(s, db) && OwnersStored(s, synced, owners, t)
    ensures var stored, rows := StoredFiles(s, synced, t), PersistedFiles(db, synced, owners);
            stored.Ok? && rows.Ok? ==> Joined(stored.value, rows.value)
  {
    hide StoredFile, PersistedFile;
    if synced != [] {
      PersistKeepsJoined(s, db, Front(synced), owners, t);
      var before, rows, y := StoredFiles(s, Front(synced), t), PersistedFiles(db, Front(synced), owners), Last(synced);
      if before.Ok? && rows.Ok? && !y.reused && StoredFile(before.value, y, t).Ok? {
        StepKeepsJoined(before.value, rows.value, y, t);
      }
    }
  }

  /** Items that neither an entry nor a binding refers to are deleted. */
  ghost predicate HasOwned(s: Store, db: Db, m: MediaIdentity.Id) {
    (exists i :: i in db.entries && db.entries[i].media == m) || (exists r :: r in s.bindings && s.bindings[r].media == m)
  }

  ghost function Swept(s: Store, db: Db): Store {
    Restricted(s, set m | m in s.media && HasOwned(s, db, m))
  }

  lemma SweptKeepsJoined(s: Store, db: Db)
    requires Joined(s, db)
    ensures Joined(Swept(s, db), db) && Swept(s, db).bindings == s.bindings
  {
    var s' := Swept(s, db);
    assert IdentitiesOk(s'.media, s'.identities);
    assert BindingsOk(s'.media, s'.bindings);
    assert AliasesOk(s'.media, s'.aliases);
    assert IdsOk(s');
  }
}
