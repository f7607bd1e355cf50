/** From one sync to the next by way of the identity store: what was bound is read back, merged and selected. */
module IdentityRound {
  import opened Common
  import opened IdentityInputs
  import opened LibraryFiles
  import opened LibraryPaths
  import opened MediaIdentity
  import opened NextRun
  import opened StoredIdentities
  import opened StrmSync
  import opened SyncDecisions
  import opened SyncState
  import opened TorBoxFiles

  // ---------- Reading back ----------

  function CategoryOfName(name: string): Option<Category> {
    if name == "movies" then Some(Movies) else if name == "shows" then Some(Shows)
    else if name == "anime" then Some(Anime) else None
  }

  /** The identity that a binding stands for: the item's, with the evidence of the binding. */
  ghost function KnownOf(s: Store, b: Binding): Known
    requires b.media in s.media
  {
    var item, row := s.media[b.media], IdentityOfMedia(s, b.media);
    Known(if row.Some? then Some(s.identities[row.value].externalId) else None, item.title, item.year,
          if row.Some? then s.identities[row.value].kind else ProviderKindFor(item.kind), item.poster,
          b.evidence.authority, b.evidence.confidence,
          if b.evidence.resolverVersion.Some? && b.evidence.resolverVersion.value != "" then b.evidence.resolverVersion.value
          else "persisted-v1",
          CategoryOfName(item.category))
  }

  /** A row of the bindings, with its item; the kind beside a hash is not looked at. */
  ghost function RecordOf(s: Store, b: Binding): Record
    requires b.media in s.media
  {
    match b.key
    case ItemKey(kind, id) => Record(kind, Some(id), None, KnownOf(s, b))
    case HashKey(hash) => Record("torrents", None, Some(hash), KnownOf(s, b))
  }

  /** The rows in the order in which the database returns them, each once. */
  ghost predicate IsOrder(order: seq<MediaIdentity.Id>, s: Store) {
    && (forall r :: r in order <==> r in s.bindings)
    && (forall i, j :: 0 <= i < j < |order| ==> order[i] != order[j])
  }

  ghost predicate AreRecords(records: seq<Record>, order: seq<MediaIdentity.Id>, s: Store) {
    && |records| == |order|
    && forall i :: 0 <= i < |order| ==>
         order[i] in s.bindings && s.bindings[order[i]].media in s.media && records[i] == RecordOf(s, s.bindings[order[i]])
  }

  /** The records of the store, in some order. */
  ghost predicate ReadsBack(records: seq<Record>, s: Store) {
    exists order :: IsOrder(order, s) && AreRecords(records, order, s)
  }

  /** What the join reads of a media item. */
  ghost function ViewOf(s: Store, m: MediaIdentity.Id): MediaView
    requires m in s.media
  {
    var item, row := s.media[m], IdentityOfMedia(s, m);
    MediaView(item.title, item.year, item.poster, if row.Some? then Some(s.identities[row.value].externalId) else None)
  }

  ghost predicate Views(view: SyncState.Id -> MediaView, s: Store) {
    forall m :: m in s.media ==> view(m) == ViewOf(s, m)
  }

  // ---------- A slot that one record names ----------

  lemma OneRecordPut(m: Maps, r: Record, casefold: string -> string, slot: Slot)
    requires Slots(r, casefold) == [slot]
    ensures At(MergeRecord(m, r, casefold), slot) == Some(Better(r.identity, At(m, slot)))
  {
    SelectedPair(m, r, casefold);
  }

  /** A slot that exactly one record names ends with its identity, unless a stronger one was selected for it. */
  lemma {:induction false} OneRecordDecides(
    m: Maps, records: seq<Record>, casefold: string -> string, slot: Slot, i: nat, n: nat)
    requires i < |records| && n <= |records| && Slots(records[i], casefold) == [slot]
    requires forall j :: 0 <= j < |records| && j != i ==> !Names(records[j], slot, casefold)
    ensures At(Merge(m, records[..n], casefold), slot) ==
            if i < n then Some(Better(records[i].identity, At(m, slot))) else At(m, slot)
  {
    hide MergeRecord, Slots, At, Better;
    if n > 0 {
      assert Front(records[..n]) == records[..n - 1] && Last(records[..n]) == records[n - 1];
      OneRecordDecides(m, records, casefold, slot, i, n - 1);
      var before := Merge(m, records[..n - 1], casefold);
      if n - 1 == i {
        OneRecordPut(before, records[i], casefold, slot);
      } else {
        assert !Names(records[n - 1], slot, casefold);
        MergeRecordMeaning(before, records[n - 1], casefold);
      }
    }
  }

  lemma OtherRecord(
    s: Store, records: seq<Record>, order: seq<MediaIdentity.Id>, casefold: string -> string, id: string, i: nat, j: nat)
    requires MediaIdentity.Inv(s) && IsOrder(order, s) && AreRecords(records, order, s)
    requires i < |order| && j < |order| && i != j && s.bindings[order[i]].key == ItemKey("torrents", id)
    ensures !Names(records[j], Torrent(id), casefold)
  {
    assert order[i] != order[j];
    assert s.bindings[order[i]].key != s.bindings[order[j]].key;
    hide KnownOf;
  }

  lemma BindingHasItem(s: Store, key: SourceKey)
    requires MediaIdentity.Inv(s) && BindingOf(s, key).Some?
    ensures BindingOf(s, key).value.media in s.media && BindingOf(s, key).value.key == key
    ensures BindingRow(s, key).Some? && BindingRow(s, key).value in s.bindings
    ensures s.bindings[BindingRow(s, key).value] == BindingOf(s, key).value
  {
  }

  lemma TorrentSlots(r: Record, id: string, casefold: string -> string)
    requires r.sourceKind == "torrents" && r.itemId == Some(id) && r.infoHash.None?
    ensures Slots(r, casefold) == [Torrent(id)]
  {
  }

  lemma RowIndex(order: seq<MediaIdentity.Id>, s: Store, row: MediaIdentity.Id) returns (i: nat)
    requires IsOrder(order, s) && row in s.bindings
    ensures i < |order| && order[i] == row
  {
    assert row in order;
    i :| 0 <= i < |order| && order[i] == row;
  }

  lemma RecordAt(records: seq<Record>, order: seq<MediaIdentity.Id>, s: Store, i: nat)
    requires AreRecords(records, order, s) && i < |order|
    ensures |records| == |order| && order[i] in s.bindings && s.bindings[order[i]].media in s.media
    ensures records[i] == RecordOf(s, s.bindings[order[i]])
  {
  }

  lemma RecordOfItem(s: Store, b: Binding, kind: string, id: string)
    requires b.media in s.media && b.key == ItemKey(kind, id)
    ensures RecordOf(s, b) == Record(kind, Some(id), None, KnownOf(s, b))
  {
  }

  /** The one record that names a bound torrent. */
  lemma TheRecord(s: Store, records: seq<Record>, casefold: string -> string, id: string) returns (i: nat)
    requires MediaIdentity.Inv(s) && ReadsBack(records, s) && BindingOf(s, ItemKey("torrents", id)).Some?
    ensures BindingOf(s, ItemKey("torrents", id)).value.media in s.media
    ensures i < |records| && Slots(records[i], casefold) == [Torrent(id)]
    ensures records[i].identity == KnownOf(s, BindingOf(s, ItemKey("torrents", id)).value)
    ensures forall j :: 0 <= j < |records| && j != i ==> !Names(records[j], Torrent(id), casefold)
  {
    var order :| IsOrder(order, s) && AreRecords(records, order, s);
    hide *;
    var key := ItemKey("torrents", id);
    BindingHasItem(s, key);
    i := RowIndex(order, s, BindingRow(s, key).value);
    RecordAt(records, order, s, i);
    RecordOfItem(s, s.bindings[order[i]], "torrents", id);
    TorrentSlots(records[i], id, casefold);
    forall j | 0 <= j < |records| && j != i ensures !Names(records[j], Torrent(id), casefold) {
      OtherRecord(s, records, order, casefold, id, i, j);
    }
  }

  /** What is selected for a torrent that is bound: the identity of its binding, unless a stronger one was selected. */
  lemma BoundIsSelected(s: Store, records: seq<Record>, m: Maps, casefold: string -> string, id: string)
    requires MediaIdentity.Inv(s) && ReadsBack(records, s) && BindingOf(s, ItemKey("torrents", id)).Some?
    ensures var b := BindingOf(s, ItemKey("torrents", id)).value;
            && b.media in s.media
            && Lookup(Merge(m, records, casefold).byTorrentId, id) == Some(Better(KnownOf(s, b), Lookup(m.byTorrentId, id)))
  {
    var i := TheRecord(s, records, casefold, id);
    hide MediaIdentity.Inv, Merge, KnownOf, ReadsBack, BindingOf, Slots, Names;
    assert records[..|records|] == records;
    OneRecordDecides(m, records, casefold, Torrent(id), i, |records|);
    assert At(Merge(m, records, casefold), Torrent(id)) == Lookup(Merge(m, records, casefold).byTorrentId, id);
  }

  // ---------- Hashes ----------

  lemma RecordOfHash(s: Store, b: Binding, hash: string, casefold: string -> string)
    requires b.media in s.media && b.key == HashKey(hash)
    ensures Names(RecordOf(s, b), Hash(casefold(hash)), casefold) && RecordOf(s, b).identity == KnownOf(s, b)
  {
    hide KnownOf;
  }

  /** Whatever the case of its letters: for a hash that is bound an identity is selected that is no weaker than the binding. */
  lemma BoundHashIsSelected(s: Store, env: Env, records: seq<Record>, m: Maps, id: string, hash: string, bound: string)
    requires MediaIdentity.Inv(s) && ReadsBack(records, s) && BindingOf(s, HashKey(bound)).Some?
    requires env.byInfoHash == Merge(m, records, env.casefold).byInfoHash
    requires id !in env.byTorrentId && env.casefold(hash) == env.casefold(bound)
    ensures var b, selected := BindingOf(s, HashKey(bound)).value, SelectedIdentity(env, id, Some(hash));
            selected.Some? && Priority(selected.value) >= b.evidence.authority.Priority()
  {
    var order :| IsOrder(order, s) && AreRecords(records, order, s);
    BindingHasItem(s, HashKey(bound));
    var b, slot := BindingOf(s, HashKey(bound)).value, Hash(env.casefold(bound));
    hide MediaIdentity.Inv, BindingOf, IsOrder, AreRecords, KnownOf, RecordOf, Merge, Names, Priority;
    var i := RowIndex(order, s, BindingRow(s, HashKey(bound)).value);
    RecordAt(records, order, s, i);
    RecordOfHash(s, b, bound, env.casefold);
    KnownHasPriority(s, b);
    MergedIsStrongest(m, records, env.casefold, slot);
    assert At(Merge(m, records, env.casefold), slot) == Lookup(env.byInfoHash, env.casefold(hash));
  }

  /** What is read back is what the rows say: title, year and poster of the item, its category if it is one of the three, id and
      sort of media of its TMDB identity if it has one, and the evidence of the binding, with a version in place of none. */
  lemma KnownIsStored(s: Store, b: Binding)
    requires MediaIdentity.Inv(s) && b.media in s.media
    ensures var k, item := KnownOf(s, b), s.media[b.media];
            && k.title == item.title && k.year == item.year && k.poster == item.poster
            && (forall c :: k.category == Some(c) <==> item.category == CategoryName(c))
            && (forall r :: IdentityBelongs(s, r, b.media) ==>
                  k.tmdbId == Some(s.identities[r].externalId) && k.mediaType == s.identities[r].kind)
            && ((forall r :: !IdentityBelongs(s, r, b.media)) ==>
                  k.tmdbId == None && k.mediaType == if item.kind == Movie then MovieKind else TvKind)
            && k.authority == b.evidence.authority && k.confidence == b.evidence.confidence
            && (b.evidence.resolverVersion in [None, Some("")] ==> k.resolverVersion == "persisted-v1")
            && (b.evidence.resolverVersion in [None, Some("")] || b.evidence.resolverVersion == Some(k.resolverVersion))
  {
    forall r | IdentityBelongs(s, r, b.media) ensures IdentityOfMedia(s, b.media) == Some(r) {
      var row := IdentityOfMedia(s, b.media).value;
      assert row == r || !Clash(s.identities[row], s.identities[r]);
    }
    hide BindingsOk, MediaIdentity.EntriesOk, AliasesOk;
    forall c ensures CategoryOfName(s.media[b.media].category) == Some(c) <==> s.media[b.media].category == CategoryName(c) {
      assert "movies" != "shows" && "movies"[0] != "anime"[0] && "shows"[0] != "anime"[0];
    }
    hide CategoryOfName, CategoryName;
  }

  // ---------- What a sync binds is what the next one selects ----------

  /** The maps of a run are what was selected for it, merged with the stored bindings. */
  ghost predicate SelectsFrom(env: Env, m: Maps, s: Store) {
    exists records :: ReadsBack(records, s) && MergedInto(env, m, records)
  }

  predicate MergedInto(env: Env, m: Maps, records: seq<Record>) {
    env.byTorrentId == Merge(m, records, env.casefold).byTorrentId && env.byInfoHash == Merge(m, records, env.casefold).byInfoHash
  }

  /** Nothing stronger than the binding of the torrent is selected for it. */
  ghost predicate NotOutranked(m: Maps, s: Store, id: string) {
    var b, chosen := BindingOf(s, ItemKey("torrents", id)), Lookup(m.byTorrentId, id);
    b.Some? && chosen.Some? ==> Priority(chosen.value) <= b.value.evidence.authority.Priority()
  }

  /** The item is not of another category. */
  predicate FitsCategory(item: Media, c: Category) {
    CategoryOfName(item.category).None? || CategoryOfName(item.category) == Some(c)
  }

  lemma KnownReadsAlike(s: Store, b: Binding, c: Category)
    requires b.media in s.media
    ensures ReadAlike(ViewOf(s, b.media), c, Some(KnownOf(s, b))) <==> FitsCategory(s.media[b.media], c)
  {
    hide IdentityOfMedia, CategoryOfName;
  }

  lemma KnownHasPriority(s: Store, b: Binding)
    requires b.media in s.media
    ensures Priority(KnownOf(s, b)) == b.evidence.authority.Priority()
  {
    hide IdentityOfMedia, CategoryOfName;
  }

  /** What is selected for a bound torrent that is not outranked, whatever its hash. */
  lemma SelectedIsKnown(s: Store, env: Env, m: Maps, id: string, hash: Option<string>)
    requires MediaIdentity.Inv(s) && SelectsFrom(env, m, s)
    requires BindingOf(s, ItemKey("torrents", id)).Some? && NotOutranked(m, s, id)
    ensures var b := BindingOf(s, ItemKey("torrents", id)).value;
            b.media in s.media && SelectedIdentity(env, id, hash) == Some(KnownOf(s, b))
  {
    var records :| ReadsBack(records, s) && MergedInto(env, m, records);
    BoundIsSelected(s, records, m, env.casefold, id);
    KnownHasPriority(s, BindingOf(s, ItemKey("torrents", id)).value);
    hide MediaIdentity.Inv, ReadsBack, Merge, KnownOf, BindingOf, Priority;
    assert Lookup(env.byTorrentId, id) == SelectedIdentity(env, id, hash);
  }

  /** If the torrent is bound to the item of its file, the item is read as the identity that is then selected exactly
      when its category is that of the file. */
  lemma BoundReadsAlike(
    s: Store, view: SyncState.Id -> MediaView, env: Env, m: Maps, id: string, hash: Option<string>, item: MediaIdentity.Id,
    c: Category)
    requires MediaIdentity.Inv(s) && Views(view, s) && SelectsFrom(env, m, s)
    requires Bound(s, ItemKey("torrents", id), item) && NotOutranked(m, s, id)
    ensures item in s.media
    ensures ReadAlike(view(item), c, SelectedIdentity(env, id, hash)) <==> FitsCategory(s.media[item], c)
  {
    SelectedIsKnown(s, env, m, id, hash);
    var b := BindingOf(s, ItemKey("torrents", id)).value;
    KnownReadsAlike(s, b, c);
    assert view(b.media) == ViewOf(s, b.media);
    hide *;
    assert b.media == item by { BoundTo(s, ItemKey("torrents", id), item); }
  }

  lemma BoundTo(s: Store, key: SourceKey, item: MediaIdentity.Id)
    requires Bound(s, key, item)
    ensures BindingOf(s, key).Some? && BindingOf(s, key).value.media == item
  {
  }

  /** What persisting a run does to the identity store: each printed file is stored, and orphans are swept. */
  ghost predicate StoresWith(
    store: Store, db: Db, synced: seq<Synced>, owners: Synced -> SyncState.Id, t: Text, store': Store, db': Db)
  {
    && Joined(store, db) && OwnersStored(store, synced, owners, t) && StoredFiles(store, synced, t).Ok?
    && store' == Swept(StoredFiles(store, synced, t).value, db')
  }

  lemma SweptBinds(s: Store, db: Db, key: SourceKey)
    requires Joined(s, db)
    ensures BindingOf(Swept(s, db), key) == BindingOf(s, key)
  {
    SweptKeepsJoined(s, db);
    BindingsAreOk(s);
    SameBinding(s, Swept(s, db), key);
    hide MediaIdentity.Inv, BindingOf, Swept;
  }

  /** After the rows and the store have been persisted, every source is bound to the item of its files' entries. */
  lemma StoredSourcesAreOwn(
    store: Store, db: Db, synced: seq<Synced>, owners: Synced -> SyncState.Id, t: Text, store': Store, db': Db, x: Synced)
    requires StoresWith(store, db, synced, owners, t, store', db') && x in synced
    requires PersistedFiles(db, synced, owners).Ok? && db'.entries == PersistedFiles(db, synced, owners).value.entries
    requires OneOwner(db, owners, synced) && OwnSources(db, store, owners, synced)
    ensures Joined(store', db') && Bound(store', SourceOf(x), OwnerOf(db, owners, x))
  {
    hide MediaIdentity.Inv, StoredFiles, PersistedFiles, OwnersStored, OneOwner, OwnSources, OwnerOf, BindingOf, Swept;
    var stored := StoredFiles(store, synced, t).value;
    PersistKeepsJoined(store, db, synced, owners, t);
    SweptKeepsJoined(stored, db');
    SourcesFollow(db, store, synced, owners, t);
    SweptBinds(stored, db', SourceOf(x));
  }
}
