/** The repository's methods over the tables, each proved against the operation that specifies it. */
module MediaIdentityTables {
  import opened Common
  import opened MediaIdentity

  class MediaIdentityRepository {
    const text: Text
    var media: map<Id, Media>
    var identities: map<Id, Identity>
    var bindings: map<Id, Binding>
    var entries: map<string, Id>
    var aliases: set<(Id, string)>
    var nextId: Id

    ghost function State(): Store
      reads this
    {
      Store(media, identities, bindings, entries, aliases, nextId)
    }

    constructor (text: Text)
      ensures Inv(State()) && this.text == text
      ensures media == map[] && identities == map[] && bindings == map[] && entries == map[] && aliases == {}
    {
      this.text := text;
      media, identities, bindings, entries, aliases, nextId := map[], map[], map[], map[], {}, 0;
    }

    method ExternalIdentity(kind: ProviderKind, externalId: string) returns (row: Option<Id>)
      requires Inv(State())
      ensures row == IdentityRow(State(), kind, externalId)
    {
      OwnerIsUnique(State(), kind, externalId);
      if r :| r in identities && identities[r].kind == kind && identities[r].externalId == externalId {
        assert IdentityMatches(State(), r, kind, externalId);
        return Some(r);
      }
      return None;
    }

    method IdentityForMedia(m: Id) returns (row: Option<Id>)
      requires Inv(State())
      ensures row == IdentityOfMedia(State(), m)
    {
      if r :| r in identities && identities[r].media == m {
        assert IdentityBelongs(State(), r, m);
        return Some(r);
      }
      return None;
    }

    method BindingForKey(key: SourceKey) returns (row: Option<Id>)
      requires Inv(State())
      ensures row == BindingRow(State(), key)
    {
      if r :| r in bindings && bindings[r].key == key {
        assert BindingMatches(State(), r, key);
        return Some(r);
      }
      return None;
    }

    /** At most two matches are fetched, and a single one is used. */
    method FindUnidentifiedMedia(w: MediaWrite) returns (found: Option<Id>)
      ensures found == UnidentifiedMedia(State(), w)
    {
      var matches := set m | m in media && media[m].kind == w.kind && media[m].category == w.category
                             && media[m].title == w.title && media[m].year == w.year
                             && m !in (set r | r in identities :: identities[r].media);
      assert matches == Unidentified(State(), w);
      if |matches| != 1 {
        return None;
      }
      ghost var chosen := UnidentifiedMedia(State(), w).value;
      assert |matches - {chosen}| == 0;
      assert matches == {chosen};
      var m :| m in matches;
      return Some(m);
    }

    method Alias(m: Id, alias: string)
      modifies `aliases
      ensures State() == WithAlias(old(State()), m, alias, text)
    {
      var normalized := text.normalize(alias);
      if normalized != "" {
        aliases := aliases + {(m, normalized)};
      }
    }

    method EnsureMedia(w: MediaWrite) returns (m: Id)
      requires Inv(State())
      modifies this
      ensures Inv(State()) && m in media
      ensures (State(), m) == Ensured(old(State()), w, text)
    {
      hide IdentitiesOk, BindingsOk, EntriesOk, AliasesOk, IdsOk;
      EnsuredKeepsInv(State(), w, text);
      var row := None;
      if w.tmdbId.Some? {
        row := ExternalIdentity(w.providerKind, w.tmdbId.value);
      }
      if row.Some? {
        m := identities[row.value].media;
        IdentityHasMedia(State(), row.value);
        ApplyStrongerIdentity(row.value, w);
        Alias(m, w.title);
        return;
      }
      var found := FindUnidentifiedMedia(w);
      if found.Some? {
        m := found.value;
      } else {
        m := AddMedia(w);
      }
      if w.tmdbId.Some? {
        AddIdentity(m, w);
      }
      Alias(m, w.title);
    }

    method AddMedia(w: MediaWrite) returns (m: Id)
      modifies `media, `nextId
      ensures m == old(nextId) && State() == Inserted(old(State()), w)
    {
      m := nextId;
      media := media[m := Media(w.kind, w.category, w.title, w.year, w.poster)];
      nextId := nextId + 1;
    }

    method AddIdentity(m: Id, w: MediaWrite)
      requires w.tmdbId.Some?
      modifies `identities, `nextId
      ensures State() == Identified(old(State()), m, w)
    {
      identities := identities[nextId := Identity(m, w.providerKind, w.tmdbId.value,
                                                  EvidenceOf(w.authority, w.confidence, w.resolverVersion))];
      nextId := nextId + 1;
    }

    method ApplyStrongerIdentity(row: Id, w: MediaWrite)
      requires row in identities && identities[row].media in media
      modifies `media, `identities
      ensures State() == Strengthened(old(State()), row, w, text)
    {
      var i := identities[row];
      var item, e := media[i.media], i.evidence;
      if e.authoritative {
        item := FillMissing(item, w, text.blank);
      } else if w.authority.Authoritative() {
        item := item.(title := w.title, year := w.year, poster := Or(w.poster, item.poster));
        e := Evidence(w.authority, true, w.confidence, w.resolverVersion);
      } else {
        item := FillMissing(item, w, text.blank);
        if w.authority.Priority() > e.authority.Priority() {
          e := e.(authority := w.authority, confidence := w.confidence, resolverVersion := w.resolverVersion);
        }
      }
      media := media[i.media := item];
      identities := identities[row := i.(evidence := e)];
    }

    method BindSources(m: Id, w: BindingWrite) returns (conflict: bool)
      requires Inv(State()) && m in media
      modifies this
      ensures Inv(State()) && media == old(media)
      ensures (State(), conflict) == BoundSources(old(State()), m, w, text)
    {
      hide Inv, BoundKey;
      BoundSourcesKeepInv(State(), m, w, text);
      var e := EvidenceOf(w.authority, w.confidence, w.resolverVersion);
      if w.itemId.Some? {
        conflict := BindSourceKey(m, ItemKey(w.sourceKind, w.itemId.value), e);
        if conflict {
          return true;
        }
      }
      var hash := if w.infoHash.None? then None else text.infoHash(w.infoHash.value);
      if hash.Some? {
        conflict := BindSourceKey(m, HashKey(hash.value), e);
        if conflict {
          return true;
        }
      }
      Alias(m, w.title);
      return false;
    }

    method BindSourceKey(m: Id, key: SourceKey, e: Evidence) returns (conflict: bool)
      requires Inv(State()) && m in media && Honest(e)
      modifies `bindings, `nextId
      ensures Inv(State())
      ensures BoundKey(old(State()), m, key, e) == if conflict then Raised(AuthoritativeIdentityConflict) else Ok(State())
      ensures conflict ==> State() == old(State())
    {
      hide IdentitiesOk, BindingsOk, EntriesOk, AliasesOk, IdsOk;
      BoundKeyKeepsInv(State(), m, key, e);
      var row := BindingForKey(key);
      if row.None? {
        bindings := bindings[nextId := Binding(m, key, e)];
        nextId := nextId + 1;
        return false;
      }
      var b := bindings[row.value];
      if b.media != m {
        if b.evidence.authoritative && !e.authoritative {
          return false;
        }
        if b.evidence.authoritative && e.authoritative {
          return true;
        }
        b := b.(media := m);
      }
      if e.authoritative || !b.evidence.authoritative {
        b := b.(evidence := e);
      }
      bindings := bindings[row.value := b];
      return false;
    }

    /** Folds the item into the one that already carries the identity, if there is one, and makes the
        identity and every source binding of the survivor manual. */
    method SetManualTmdbIdentity(item: Id, tmdbId: string) returns (m: Id)
      requires Inv(State()) && item in media
      modifies this
      ensures Inv(State()) && m in media
      ensures (State(), m) == ManuallyIdentified(old(State()), item, tmdbId)
    {
      hide IdentitiesOk, BindingsOk, EntriesOk, AliasesOk, IdsOk;
      hide MadeManual;
      ManuallyIdentifiedKeepsInv(State(), item, tmdbId);
      var kind := ProviderKindFor(media[item].kind);
      m := item;
      var owner := ExternalIdentity(kind, tmdbId);
      if owner.Some? && identities[owner.value].media != item {
        m := identities[owner.value].media;
        IdentityHasMedia(State(), owner.value);
        MergeMediaItems(m, item);
      }
      assert (State(), m) == Unmerged(old(State()), item, tmdbId);
      MakeManual(m, kind, tmdbId);
    }

    method MakeManual(m: Id, kind: ProviderKind, tmdbId: string)
      requires Inv(State()) && m in media
      modifies this
      ensures State() == MadeManual(old(State()), m, kind, tmdbId)
    {
      hide Inv;
      var current := IdentityForMedia(m);
      var identity := Identity(m, kind, tmdbId, ManualEvidence);
      if current.None? {
        identities := identities[nextId := identity];
        nextId := nextId + 1;
      } else {
        if identities[current.value].externalId != tmdbId {
          media := media[m := media[m].(poster := None)];
        }
        identities := identities[current.value := identity];
      }
      bindings := map r | r in bindings ::
        if bindings[r].media == m then bindings[r].(evidence := ManualEvidence) else bindings[r];
    }

    method MergeMediaItems(target: Id, duplicate: Id)
      requires Inv(State()) && target in media && duplicate in media && target != duplicate
      modifies this
      ensures State() == Merged(old(State()), target, duplicate) && Inv(State())
    {
      hide IdentitiesOk, BindingsOk, EntriesOk, AliasesOk, IdsOk;
      MergedKeepsInv(State(), target, duplicate);
      entries := map e | e in entries :: if entries[e] == duplicate then target else entries[e];
      MoveBindings(target, duplicate);
      aliases := set a | a in aliases :: if a.0 == duplicate then (target, a.1) else a;
      identities := map r | r in identities && identities[r].media != duplicate :: identities[r];
      media := media - {duplicate};
    }

    /** Every binding of the duplicate moves.  The target cannot have a binding for the same key. */
    method MoveBindings(target: Id, duplicate: Id)
      requires BindingsOk(media, bindings) && target != duplicate
      modifies `bindings
      ensures bindings == Merged(old(State()), target, duplicate).bindings
    {
      hide BindingsOk, Moved;
      ghost var before := bindings;
      var todo := set r | r in bindings && bindings[r].media == duplicate;
      ghost var rows := todo;
      AllMoved(before, rows, target, duplicate);
      while todo != {}
        invariant todo <= rows
        invariant bindings == Moved(before, rows - todo, target)
        decreases |todo|
      {
        var r :| r in todo;
        MoveStep(media, before, rows - todo, target, duplicate, r);
        if q :| q in bindings && bindings[q].media == target && bindings[q].key == bindings[r].key {
          assert false;
        } else {
          bindings := bindings[r := Binding(target, bindings[r].key, ManualEvidence)];
        }
        assert rows - (todo - {r}) == (rows - todo) + {r};
        todo := todo - {r};
      }
      assert rows - todo == rows;
    }

    static lemma AllMoved(bindings: map<Id, Binding>, rows: set<Id>, target: Id, duplicate: Id)
      requires rows == set r | r in bindings && bindings[r].media == duplicate
      ensures Moved(bindings, rows - rows, target) == bindings
      ensures Moved(bindings, rows, target) ==
              map r | r in bindings ::
                if bindings[r].media == duplicate then Binding(target, bindings[r].key, ManualEvidence) else bindings[r]
    {
    }

    static lemma MoveStep(
      media: map<Id, Media>, before: map<Id, Binding>, moved: set<Id>, target: Id, duplicate: Id, r: Id)
      requires BindingsOk(media, before) && target != duplicate
      requires r in before && before[r].media == duplicate && r !in moved
      ensures var now := Moved(before, moved, target);
              && r in now && now[r] == before[r]
              && (forall q :: q in now && now[q].media == target ==> now[q].key != now[r].key)
              && Moved(before, moved + {r}, target) == now[r := Binding(target, now[r].key, ManualEvidence)]
    {
      var now := Moved(before, moved, target);
      forall q | q in now && now[q].media == target ensures now[q].key != now[r].key {
        assert now[q].key == before[q].key && q != r;
      }
    }

    /** The bindings once those in `rows` have moved. */
    static ghost function Moved(bindings: map<Id, Binding>, rows: set<Id>, target: Id): map<Id, Binding> {
      map r | r in bindings :: if r in rows then Binding(target, bindings[r].key, ManualEvidence) else bindings[r]
    }

    method ReferencedMedia() returns (kept: set<Id>)
      ensures forall m :: m in kept <==> Referenced(State(), m)
    {
      kept := (set e | e in entries :: entries[e]) + (set r | r in bindings :: bindings[r].media);
    }

    /** Deletes the items outside `kept`; identities and aliases go with them. */
    method DeleteAllBut(kept: set<Id>)
      modifies this
      ensures State() == Restricted(old(State()), kept)
    {
      media := map m | m in media && m in kept :: media[m];
      identities := map r | r in identities && identities[r].media in kept :: identities[r];
      aliases := set a | a in aliases && a.0 in kept;
    }

    /** Deletes the items that have neither entries nor sources. */
    method DeleteOrphanedMedia() returns (deleted: nat)
      requires Inv(State())
      modifies this
      ensures Inv(State()) && State() == WithoutOrphans(old(State()))
      ensures deleted == |old(media).Keys - media.Keys|
    {
      hide Inv, Referenced, WithoutOrphans;
      WithoutOrphansKeepsInv(State());
      var kept := ReferencedMedia();
      RestrictedToReferenced(State(), kept);
      var orphans := media.Keys - kept;
      DeleteAllBut(kept);
      assert orphans == old(media).Keys - media.Keys;
      return |orphans|;
    }
  }
}
