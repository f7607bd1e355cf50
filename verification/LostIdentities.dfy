/** Where the round by way of the identity store fails: packs of several titles, and what is no torrent. */
module LostIdentities {
  import opened Common
  import opened IdentityInputs
  import opened IdentityRound
  import opened LibraryFiles
  import opened LibraryPaths
  import opened MediaIdentity
  import opened MediaMetadata
  import opened NextRun
  import opened StoredIdentities
  import opened StrmSync
  import opened SyncDecisions
  import opened SyncState
  import opened TorBoxFiles

  // ---------- Owners and identities ----------

  ghost predicate Identified(s: Store, m: MediaIdentity.Id, kind: ProviderKind, id: string) {
    exists r :: IdentityMatches(s, r, kind, id) && s.identities[r].media == m
  }

  ghost predicate IdentifiedAs(s: Store, m: MediaIdentity.Id, x: Synced) {
    x.tmdbId.Some? ==> Identified(s, m, MediaWriteOf(x).providerKind, x.tmdbId.value)
  }

  lemma StoredFileIdentifies(s: Store, x: Synced, t: Text)
    requires MediaIdentity.Inv(s) && StoredFile(s, x, t).Ok?
    ensures var (s', m) := StoredFile(s, x, t).value;
            IdentifiedAs(s', m, x) && forall n, kind, id :: Identified(s, n, kind, id) ==> Identified(s', n, kind, id)
  {
    var w := MediaWriteOf(x);
    var (s1, m) := Ensured(s, w, t);
    EnsuredKeepsInv(s, w, t);
    BoundSourcesKeepIdentities(s1, m, BindingWriteOf(x), t);
    var s' := StoredFile(s, x, t).value.0;
    hide MediaIdentity.Inv, Ensured, BoundSources;
    if x.tmdbId.Some? {
      EnsuredFollowsIdentity(s, w, t);
      var r :| IdentityMatches(s1, r, w.providerKind, w.tmdbId.value) && s1.identities[r].media == m;
      assert IdentityMatches(s', r, w.providerKind, w.tmdbId.value);
    }
    forall n, kind, id | Identified(s, n, kind, id) ensures Identified(s', n, kind, id) {
      var r :| IdentityMatches(s, r, kind, id) && s.identities[r].media == n;
      EnsuredNeverWeakens(s, w, t, r);
      assert IdentityMatches(s', r, kind, id);
    }
  }

  /** The item of a printed file with a TMDB id is the one that the store identifies by it. */
  lemma {:induction false} OwnersAreIdentified(s: Store, synced: seq<Synced>, owners: Synced -> SyncState.Id, t: Text)
    requires MediaIdentity.Inv(s) && OwnersStored(s, synced, owners, t) && StoredFiles(s, synced, t).Ok?
    ensures forall x :: x in synced && !x.reused ==> IdentifiedAs(StoredFiles(s, synced, t).value, owners(x), x)
  {
    hide MediaIdentity.Inv, StoredFile, Identified;
    if synced != [] {
      OwnersAreIdentified(s, Front(synced), owners, t);
      var before, y := StoredFiles(s, Front(synced), t).value, Last(synced);
      assert synced == Front(synced) + [y];
      if !y.reused {
        StoredFileIdentifies(before, y, t);
      }
    }
  }

  lemma IdentityDecidesOwner(s: Store, m: MediaIdentity.Id, n: MediaIdentity.Id, kind: ProviderKind, id: string)
    requires MediaIdentity.Inv(s) && Identified(s, m, kind, id) && Identified(s, n, kind, id)
    ensures m == n
  {
    OwnerIsUnique(s, kind, id);
    hide MediaIdentity.Inv;
  }

  lemma OwnerHasIdentity(s: Store, m: MediaIdentity.Id, kind: ProviderKind, id: string)
    requires MediaIdentity.Inv(s) && Identified(s, m, kind, id)
    ensures IdentityOfMedia(s, m).Some? && s.identities[IdentityOfMedia(s, m).value].externalId == id
  {
    var r :| IdentityMatches(s, r, kind, id) && s.identities[r].media == m;
    assert IdentityBelongs(s, r, m);
    var row := IdentityOfMedia(s, m).value;
    assert row == r || !Clash(s.identities[row], s.identities[r]);
  }

  /** Printed files with one TMDB id, as films or as series, belong to one item. */
  lemma OneIdentityOneOwner(s: Store, synced: seq<Synced>, owners: Synced -> SyncState.Id, t: Text, x: Synced, y: Synced)
    requires MediaIdentity.Inv(s) && OwnersStored(s, synced, owners, t) && StoredFiles(s, synced, t).Ok?
    requires x in synced && y in synced && !x.reused && !y.reused
    requires x.tmdbId.Some? && y.tmdbId == x.tmdbId && ContentKindFor(y.category) == ContentKindFor(x.category)
    ensures owners(x) == owners(y)
  {
    OwnersAreIdentified(s, synced, owners, t);
    var s' := StoredFiles(s, synced, t).value;
    hide MediaIdentity.Inv, StoredFiles, OwnersStored, Identified;
    assert IdentifiedAs(s', owners(x), x) && IdentifiedAs(s', owners(y), y);
    IdentityDecidesOwner(s', owners(x), owners(y), MediaWriteOf(x).providerKind, x.tmdbId.value);
  }

  /** The item of a printed file whose id is known to the store already carries that id; one that is new is made of the
      file: its title, year, poster, category and id, bound under its item and hash and an alias of its titles. */
  lemma NewItemReadsAsFile(s: Store, x: Synced, t: Text)
    requires MediaIdentity.Inv(s) && StoredFile(s, x, t).Ok? && x.tmdbId.Some?
    requires var kind := if x.category == Movies then MovieKind else TvKind;
             forall r :: !IdentityMatches(s, r, kind, x.tmdbId.value)
    ensures var (s', m) := StoredFile(s, x, t).value;
            && m in s'.media
            && (m !in s.media ==>
                  && ViewOf(s', m) == MediaView(x.title, x.year, x.poster, x.tmdbId)
                  && s'.media[m].category == CategoryName(x.category)
                  && s'.media[m].kind == (if x.category == Movies then Movie else Series))
            && (m in s.media ==> ViewOf(s', m).title == x.title && ViewOf(s', m).year == x.year && ViewOf(s', m).tmdbId == x.tmdbId)
  {
    var w := MediaWriteOf(x);
    var (s1, m) := Ensured(s, w, t);
    EnsuredKeepsInv(s, w, t);
    UnknownItemIsFoundOrMade(s, w, t);
    BoundSourcesKeepMedia(s1, m, BindingWriteOf(x), t);
    StoredFileIdentifies(s, x, t);
    var s' := StoredFile(s, x, t).value.0;
    OwnerHasIdentity(s', m, w.providerKind, x.tmdbId.value);
    hide MediaIdentity.Inv, Ensured, BoundSources, StoredFile, IdentityOfMedia, Identified;
  }

  // ---------- A pack of two titles ----------

  lemma WeakKeyIsBound(s: Store, m: MediaIdentity.Id, key: SourceKey, e: Evidence)
    ensures !e.authoritative ==> BoundKey(s, m, key, e).Ok?
  {
    hide BindingRow;
  }

  /** A write that is not authoritative meets no conflict. */
  lemma WeakFileIsStored(s: Store, x: Synced, t: Text)
    requires MediaIdentity.Inv(s) && !x.authority.Authoritative()
    ensures StoredFile(s, x, t).Ok?
  {
    var w := BindingWriteOf(x);
    var e, hash := EvidenceOf(w.authority, w.confidence, w.resolverVersion), NormalizedHash(w, t);
    var (s1, m) := Ensured(s, MediaWriteOf(x), t);
    WeakKeyIsBound(s1, m, SourceOf(x), e);
    if hash.Some? {
      WeakKeyIsBound(BoundKey(s1, m, SourceOf(x), e).value, m, HashKey(hash.value), e);
    }
    hide MediaIdentity.Inv, Ensured, BoundKey;
  }

  /** A new torrent of two titles, each found by its own TMDB id. */
  ghost predicate IsPack(s: Store, a: Synced, b: Synced) {
    && !a.reused && !b.reused && SourceOf(a) == SourceOf(b) && a.file.kind == "torrents"
    && a.tmdbId.Some? && b.tmdbId.Some? && a.tmdbId != b.tmdbId
    && !a.authority.Authoritative() && !b.authority.Authoritative()
    && !Binds(BindingOf(s, SourceOf(a)))
  }

  /** Such a pack meets no conflict, whatever is stored already. */
  lemma PackIsStored(s: Store, a: Synced, b: Synced, t: Text)
    requires MediaIdentity.Inv(s) && IsPack(s, a, b)
    ensures StoredFiles(s, [a, b], t).Ok?
  {
    assert Front([a, b]) == [a] && Front([a]) == [];
    hide MediaIdentity.Inv, StoredFile, BindingOf;
    assert StoredFiles(s, [], t) == Ok(s);
    WeakFileIsStored(s, a, t);
    assert StoredFiles(s, [a], t) == Ok(StoredFile(s, a, t).value.0);
    WeakFileIsStored(StoredFile(s, a, t).value.0, b, t);
  }

  lemma SweptIdentifies(s: Store, db: Db, key: SourceKey, m: MediaIdentity.Id, kind: ProviderKind, id: string)
    requires Joined(s, db) && Bound(s, key, m) && Identified(s, m, kind, id)
    ensures Identified(Swept(s, db), m, kind, id)
  {
    BindingHasItem(s, key);
    var r :| IdentityMatches(s, r, kind, id) && s.identities[r].media == m;
    assert HasOwned(s, db, m);
    hide MediaIdentity.Inv, BindingOf;
    assert IdentityMatches(Swept(s, db), r, kind, id);
  }

  lemma KnownHasIdentity(s: Store, b: Binding, kind: ProviderKind, id: string)
    requires MediaIdentity.Inv(s) && b.media in s.media && Identified(s, b.media, kind, id)
    ensures KnownOf(s, b).tmdbId == Some(id)
  {
    OwnerHasIdentity(s, b.media, kind, id);
    hide MediaIdentity.Inv, CategoryOfName;
  }

  /** Both titles are stored, and the torrent is bound to the second. */
  lemma PackIsBoundToLast(store: Store, a: Synced, b: Synced, owners: Synced -> SyncState.Id, t: Text, store': Store, db: Db, db': Db)
    requires StoresWith(store, db, [a, b], owners, t, store', db') && IsPack(store, a, b)
    requires PersistedFiles(db, [a, b], owners).Ok? && db'.entries == PersistedFiles(db, [a, b], owners).value.entries
    ensures MediaIdentity.Inv(store') && BindingOf(store', SourceOf(a)).Some?
    ensures BindingOf(store', SourceOf(a)).value.media in store'.media
    ensures KnownOf(store', BindingOf(store', SourceOf(a)).value).tmdbId == b.tmdbId
    ensures !BindingOf(store', SourceOf(a)).value.evidence.authoritative
  {
    var stored := StoredFiles(store, [a, b], t).value;
    DeciderOwns(store, [a, b], owners, t, SourceOf(a));
    assert Decider([a, b], SourceOf(a)) == Some(b);
    OwnersAreIdentified(store, [a, b], owners, t);
    PersistKeepsJoined(store, db, [a, b], owners, t);
    SweptKeepsJoined(stored, db');
    hide StoredFiles, PersistedFiles, OwnersStored, MediaIdentity.Inv, BindingOf, Swept, Identified, KnownOf;
    SweptBinds(stored, db', SourceOf(a));
    assert b in [a, b] && IdentifiedAs(stored, owners(b), b);
    SweptIdentifies(stored, db', SourceOf(a), owners(b), MediaWriteOf(b).providerKind, b.tmdbId.value);
    BindingHasItem(store', SourceOf(a));
    KnownHasIdentity(store', BindingOf(store', SourceOf(a)).value, MediaWriteOf(b).providerKind, b.tmdbId.value);
  }

  lemma FreshOfSelected(env: Env, f: TorBoxFile, k: Known)
    requires k.tmdbId.Some?
    ensures var d := FreshDecision(env, f, Some(k));
            d.Print? ==> d.entry.title == k.title && d.known.Some? && d.known.value.tmdbId == k.tmdbId
  {
    hide ValidEntry, Exclusions, ParsedEntry, SourcePrefix, AliasIdentity;
  }

  /** The next sync takes the first title for the second: nothing that is read as the first's item is accepted, and
      processing its file prints it under the title and id of the second. */
  lemma PackIsTakenForOneTitle(
    store: Store, a: Synced, b: Synced, owners: Synced -> SyncState.Id, t: Text, store': Store, db: Db, db': Db, next: Env,
    m: Maps, hash: Option<string>)
    requires StoresWith(store, db, [a, b], owners, t, store', db') && IsPack(store, a, b)
    requires PersistedFiles(db, [a, b], owners).Ok? && db'.entries == PersistedFiles(db, [a, b], owners).value.entries
    requires SelectsFrom(next, m, store') && NotOutranked(m, store', a.file.itemId)
    ensures var selected := SelectedIdentity(next, a.file.itemId, hash);
            && selected.Some? && selected.value.tmdbId == b.tmdbId
            && (forall item: MediaView :: item.tmdbId == a.tmdbId ==> !ReadAlike(item, a.category, selected))
            && var d := FreshDecision(next, a.file, selected);
               d.Print? ==> d.entry.title == selected.value.title && d.known.Some? && d.known.value.tmdbId == b.tmdbId
  {
    PackIsBoundToLast(store, a, b, owners, t, store', db, db');
    hide StoresWith, PersistedFiles, MediaIdentity.Inv, BindingOf, KnownOf, SelectsFrom, NotOutranked, FreshDecision;
    SelectedIsKnown(store', next, m, a.file.itemId, hash);
    FreshOfSelected(next, a.file, SelectedIdentity(next, a.file.itemId, hash).value);
  }

  // ---------- What is no torrent ----------

  lemma {:induction false} UnnamedStays(m: Maps, records: seq<Record>, casefold: string -> string, slot: Slot)
    requires forall i :: 0 <= i < |records| ==> !Names(records[i], slot, casefold)
    ensures At(Merge(m, records, casefold), slot) == At(m, slot)
  {
    hide MergeRecord, At, Slots;
    if records != [] {
      UnnamedStays(m, Front(records), casefold, slot);
      assert !Names(records[|records| - 1], slot, casefold);
      MergeRecordMeaning(Merge(m, Front(records), casefold), Last(records), casefold);
    }
  }

  lemma NamedIsBound(s: Store, r: MediaIdentity.Id, casefold: string -> string, id: string)
    requires r in s.bindings && s.bindings[r].media in s.media
    requires Names(RecordOf(s, s.bindings[r]), Torrent(id), casefold)
    ensures BindingOf(s, ItemKey("torrents", id)).Some?
  {
    hide KnownOf;
    assert BindingMatches(s, r, ItemKey("torrents", id));
  }

  lemma UnboundIsUnnamed(s: Store, records: seq<Record>, casefold: string -> string, id: string)
    requires ReadsBack(records, s) && BindingOf(s, ItemKey("torrents", id)).None?
    ensures forall i :: 0 <= i < |records| ==> !Names(records[i], Torrent(id), casefold)
  {
    var order :| IsOrder(order, s) && AreRecords(records, order, s);
    hide *;
    assert |records| == |order| by { SameCount(records, order, s); }
    forall i | 0 <= i < |records| ensures !Names(records[i], Torrent(id), casefold) {
      RecordAt(records, order, s, i);
      if Names(records[i], Torrent(id), casefold) {
        NamedIsBound(s, order[i], casefold, id);
      }
    }
  }

  lemma SameCount(records: seq<Record>, order: seq<MediaIdentity.Id>, s: Store)
    requires AreRecords(records, order, s)
    ensures |records| == |order|
  {
  }

  /** The item of a usenet or web download is bound, but only the bindings of torrents are selected again.  Without a
      hash, and with no torrent of the same id, no identity is selected, so a row with a TMDB id is never accepted. */
  lemma MatchedDownloadIsNeverReused(
    s: Store, next: Env, m: Maps, row: Synced, f: TorBoxFile, files: Files, discovered: map<string, string>)
    requires SelectsFrom(next, m, s) && f.itemId !in m.byTorrentId && BindingOf(s, ItemKey("torrents", f.itemId)).None?
    requires InfoHash(next, discovered, f).None? && row.tmdbId.Some?
    ensures SelectedIdentity(next, f.itemId, InfoHash(next, discovered, f)).None?
    ensures !Reusable(next, files, row, f, None, SelectedIdentity(next, f.itemId, InfoHash(next, discovered, f)))
  {
    var records :| ReadsBack(records, s) && MergedInto(next, m, records);
    UnboundIsUnnamed(s, records, next.casefold, f.itemId);
    UnnamedStays(m, records, next.casefold, Torrent(f.itemId));
    hide Merge, ReadsBack, BindingOf, PlaybackUrl, Content;
    assert At(m, Torrent(f.itemId)).None?;
    assert Lookup(next.byTorrentId, f.itemId).None?;
  }
}
