/** The store of media items, their TMDB identities, and the sources and library entries that they own. */
module MediaIdentity {
  import opened Common

  datatype ContentKind = Movie | Series
  datatype ProviderKind = MovieKind | TvKind

  datatype Authority = Manual | SearchConfirmed | ProviderResolved | Migrated | Fallback {
    predicate Authoritative() {
      Manual? || SearchConfirmed?
    }

    function Priority(): nat {
      match this
      case Manual => 50
      case SearchConfirmed => 40
      case Migrated => 30
      case ProviderResolved => 20
      case Fallback => 0
    }
  }

  function ProviderKindFor(kind: ContentKind): ProviderKind {
    if kind.Movie? then MovieKind else TvKind
  }

  /** A binding is keyed either by a provider item or by a normalised info hash. */
  datatype SourceKey = ItemKey(kind: string, itemId: string) | HashKey(infoHash: string)

  type Id = nat

  datatype Media = Media(
    kind: ContentKind, category: string, title: string, year: Option<int>, poster: Option<string>)

  /** How an identity or a binding came about. */
  datatype Evidence = Evidence(
    authority: Authority, authoritative: bool, confidence: Option<int>, resolverVersion: Option<string>)

  datatype Identity = Identity(media: Id, kind: ProviderKind, externalId: string, evidence: Evidence)
  datatype Binding = Binding(media: Id, key: SourceKey, evidence: Evidence)

  datatype MediaWrite = MediaWrite(
    kind: ContentKind, category: string, title: string, year: Option<int>, tmdbId: Option<string>,
    providerKind: ProviderKind, authority: Authority, confidence: Option<int>, resolverVersion: Option<string>,
    poster: Option<string>)

  datatype BindingWrite = BindingWrite(
    sourceKind: string, itemId: Option<string>, infoHash: Option<string>, title: string,
    authority: Authority, confidence: Option<int>, resolverVersion: Option<string>)

  const ManualEvidence := Evidence(Manual, true, Some(100), None)

  function EvidenceOf(authority: Authority, confidence: Option<int>, resolverVersion: Option<string>): Evidence {
    Evidence(authority, authority.Authoritative(), confidence, resolverVersion)
  }

  /** The tables, rows under their row ids; every id handed out so far is below `nextId`. */
  datatype Store = Store(
    media: map<Id, Media>, identities: map<Id, Identity>, bindings: map<Id, Binding>,
    entries: map<string, Id>, aliases: set<(Id, string)>, nextId: Id)

  // ---------- The invariant ----------

  /** Two identity rows that may not stand beside each other. */
  predicate Clash(a: Identity, b: Identity) {
    (a.kind == b.kind && a.externalId == b.externalId) || a.media == b.media
  }

  /** One item per TMDB kind and id, and one TMDB identity per item. */
  ghost predicate IdentitiesOk(media: map<Id, Media>, identities: map<Id, Identity>) {
    && (forall r :: r in identities ==> identities[r].media in media && Honest(identities[r].evidence))
    && (forall r, q :: r in identities && q in identities && r != q ==> !Clash(identities[r], identities[q]))
  }

  lemma PutIdentity(media: map<Id, Media>, identities: map<Id, Identity>, row: Id, identity: Identity)
    requires IdentitiesOk(media, identities) && identity.media in media && Honest(identity.evidence)
    requires forall r :: r in identities && r != row ==> !Clash(identities[r], identity) && !Clash(identity, identities[r])
    ensures IdentitiesOk(media, identities[row := identity])
  {
    hide Clash;
  }

  /** One owner per source key. */
  ghost predicate BindingsOk(media: map<Id, Media>, bindings: map<Id, Binding>) {
    && (forall r :: r in bindings ==> bindings[r].media in media && Honest(bindings[r].evidence))
    && (forall r, q :: r in bindings && q in bindings && r != q ==> bindings[r].key != bindings[q].key)
  }

  lemma PutBinding(media: map<Id, Media>, bindings: map<Id, Binding>, row: Id, binding: Binding)
    requires BindingsOk(media, bindings) && binding.media in media && Honest(binding.evidence)
    requires forall r :: r in bindings && r != row ==> bindings[r].key != binding.key
    ensures BindingsOk(media, bindings[row := binding])
  {
  }

  ghost predicate EntriesOk(media: map<Id, Media>, entries: map<string, Id>) {
    forall e :: e in entries ==> entries[e] in media
  }

  ghost predicate AliasesOk(media: map<Id, Media>, aliases: set<(Id, string)>) {
    forall a :: a in aliases ==> a.0 in media
  }

  /** The stored flag is the one of the stored authority. */
  predicate Honest(e: Evidence) {
    e.authoritative == e.authority.Authoritative()
  }

  ghost predicate IdsOk(s: Store) {
    && (forall m :: m in s.media ==> m < s.nextId)
    && (forall r :: r in s.identities ==> r < s.nextId)
    && (forall r :: r in s.bindings ==> r < s.nextId)
  }

  ghost predicate Inv(s: Store) {
    && IdentitiesOk(s.media, s.identities)
    && BindingsOk(s.media, s.bindings)
    && EntriesOk(s.media, s.entries)
    && AliasesOk(s.media, s.aliases)
    && IdsOk(s)
  }

  // ---------- Queries ----------

  ghost predicate IdentityMatches(s: Store, r: Id, kind: ProviderKind, externalId: string) {
    r in s.identities && s.identities[r].kind == kind && s.identities[r].externalId == externalId
  }

  ghost function IdentityRow(s: Store, kind: ProviderKind, externalId: string): (row: Option<Id>)
    ensures row.Some? ==> IdentityMatches(s, row.value, kind, externalId)
    ensures row.None? ==> forall r :: !IdentityMatches(s, r, kind, externalId)
  {
    if r :| IdentityMatches(s, r, kind, externalId) then Some(r) else None
  }

  ghost predicate IdentityBelongs(s: Store, r: Id, m: Id) {
    r in s.identities && s.identities[r].media == m
  }

  ghost function IdentityOfMedia(s: Store, m: Id): (row: Option<Id>)
    ensures row.Some? ==> IdentityBelongs(s, row.value, m)
    ensures row.None? ==> forall r :: !IdentityBelongs(s, r, m)
  {
    if r :| IdentityBelongs(s, r, m) then Some(r) else None
  }

  ghost predicate BindingMatches(s: Store, r: Id, key: SourceKey) {
    r in s.bindings && s.bindings[r].key == key
  }

  ghost function BindingRow(s: Store, key: SourceKey): (row: Option<Id>)
    ensures row.Some? ==> BindingMatches(s, row.value, key)
    ensures row.None? ==> forall r :: !BindingMatches(s, r, key)
  {
    if r :| BindingMatches(s, r, key) then Some(r) else None
  }

  predicate HasIdentity(identities: map<Id, Identity>, m: Id) {
    exists r :: r in identities && identities[r].media == m
  }

  /** Items without any identity that carry exactly the written kind, category, title and year. */
  function Unidentified(s: Store, w: MediaWrite): set<Id> {
    set m | m in s.media && s.media[m].kind == w.kind && s.media[m].category == w.category
            && s.media[m].title == w.title && s.media[m].year == w.year && !HasIdentity(s.identities, m)
  }

  /** The one such item; several are as good as none. */
  ghost function UnidentifiedMedia(s: Store, w: MediaWrite): (found: Option<Id>)
    ensures found.Some? ==> found.value in Unidentified(s, w)
  {
    if |Unidentified(s, w)| == 1 then
      assert Unidentified(s, w) != {};
      var m :| m in Unidentified(s, w); Some(m)
    else None
  }

  // ---------- What each operation leaves behind ----------

  function FillMissing(m: Media, w: MediaWrite, blank: string -> bool): Media {
    m.(title := if blank(m.title) then w.title else m.title,
       year := if m.year.None? then w.year else m.year,
       poster := if m.poster.None? then w.poster else m.poster)
  }

  /** Python's `or`: an empty path counts as none. */
  function Or(a: Option<string>, b: Option<string>): Option<string> {
    if a.Some? && a.value != "" then a else b
  }

  function StrongerMedia(m: Media, e: Evidence, w: MediaWrite, blank: string -> bool): Media {
    if !e.authoritative && w.authority.Authoritative()
    then m.(title := w.title, year := w.year, poster := Or(w.poster, m.poster))
    else FillMissing(m, w, blank)
  }

  function StrongerEvidence(e: Evidence, w: MediaWrite): Evidence {
    if e.authoritative then e
    else if w.authority.Authoritative() then EvidenceOf(w.authority, w.confidence, w.resolverVersion)
    else if w.authority.Priority() > e.authority.Priority()
    then e.(authority := w.authority, confidence := w.confidence, resolverVersion := w.resolverVersion)
    else e
  }

  /** What the functions below take from the rest of the application. */
  datatype Text = Text(
    normalize: string -> string, blank: string -> bool, infoHash: string -> Option<string>)

  function WithAlias(s: Store, m: Id, alias: string, t: Text): Store {
    if t.normalize(alias) == "" then s else s.(aliases := s.aliases + {(m, t.normalize(alias))})
  }

  ghost function Ensured(s: Store, w: MediaWrite, t: Text): (Store, Id)
    requires Inv(s)
  {
    var row := if w.tmdbId.Some? then IdentityRow(s, w.providerKind, w.tmdbId.value) else None;
    if row.Some? then
      var i := s.identities[row.value];
      (WithAlias(Strengthened(s, row.value, w, t), i.media, w.title, t), i.media)
    else
      var found := UnidentifiedMedia(s, w);
      var m := if found.Some? then found.value else s.nextId;
      var s1 := if found.Some? then s else Inserted(s, w);
      (WithAlias(if w.tmdbId.Some? then Identified(s1, m, w) else s1, m, w.title, t), m)
  }

  function Strengthened(s: Store, row: Id, w: MediaWrite, t: Text): Store
    requires row in s.identities && s.identities[row].media in s.media
  {
    var i := s.identities[row];
    s.(media := s.media[i.media := StrongerMedia(s.media[i.media], i.evidence, w, t.blank)],
       identities := s.identities[row := i.(evidence := StrongerEvidence(i.evidence, w))])
  }

  function Inserted(s: Store, w: MediaWrite): Store {
    s.(media := s.media[s.nextId := Media(w.kind, w.category, w.title, w.year, w.poster)], nextId := s.nextId + 1)
  }

  function Identified(s: Store, m: Id, w: MediaWrite): Store
    requires w.tmdbId.Some?
  {
    s.(identities := s.identities[s.nextId := Identity(m, w.providerKind, w.tmdbId.value,
                                                       EvidenceOf(w.authority, w.confidence, w.resolverVersion))],
       nextId := s.nextId + 1)
  }

  datatype Conflict = AuthoritativeIdentityConflict

  ghost function BoundKey(s: Store, m: Id, key: SourceKey, e: Evidence): Result<Store, Conflict> {
    match BindingRow(s, key)
    case None => Ok(s.(bindings := s.bindings[s.nextId := Binding(m, key, e)], nextId := s.nextId + 1))
    case Some(r) =>
      var b := s.bindings[r];
      if b.media != m && b.evidence.authoritative && !e.authoritative then Ok(s)
      else if b.media != m && b.evidence.authoritative then Raised(AuthoritativeIdentityConflict)
      else Ok(s.(bindings := s.bindings[r := Binding(m, key, if e.authoritative || !b.evidence.authoritative
                                                              then e else b.evidence)]))
  }

  /** The normalised info hash, if there is one and it is well formed. */
  function NormalizedHash(w: BindingWrite, t: Text): Option<string> {
    if w.infoHash.None? then None else t.infoHash(w.infoHash.value)
  }

  /** A binding by item, then one by hash; a conflict on the second leaves the first for the caller
      to roll back. */
  ghost function BoundSources(s: Store, m: Id, w: BindingWrite, t: Text): (Store, bool) {
    var e := EvidenceOf(w.authority, w.confidence, w.resolverVersion);
    var first := if w.itemId.Some? then BoundKey(s, m, ItemKey(w.sourceKind, w.itemId.value), e) else Ok(s);
    match first
    case Raised(_) => (s, true)
    case Ok(s1) =>
      var hash := NormalizedHash(w, t);
      var second := if hash.Some? then BoundKey(s1, m, HashKey(hash.value), e) else Ok(s1);
      match second
      case Raised(_) => (s1, true)
      case Ok(s2) => (WithAlias(s2, m, w.title, t), false)
  }

  /** The duplicate is folded into the target: its entries, sources and aliases move, its identities go. */
  function Merged(s: Store, target: Id, duplicate: Id): Store {
    Store(s.media - {duplicate},
          map r | r in s.identities && s.identities[r].media != duplicate :: s.identities[r],
          map r | r in s.bindings ::
            if s.bindings[r].media == duplicate then Binding(target, s.bindings[r].key, ManualEvidence) else s.bindings[r],
          map e | e in s.entries :: if s.entries[e] == duplicate then target else s.entries[e],
          set a | a in s.aliases :: if a.0 == duplicate then (target, a.1) else a,
          s.nextId)
  }

  ghost function Unmerged(s: Store, m: Id, tmdbId: string): (Store, Id)
    requires m in s.media
  {
    var owner := IdentityRow(s, ProviderKindFor(s.media[m].kind), tmdbId);
    if owner.Some? && s.identities[owner.value].media != m
    then (Merged(s, s.identities[owner.value].media, m), s.identities[owner.value].media)
    else (s, m)
  }

  /** The identity of `m` becomes the manual one, and so do its bindings. */
  ghost function MadeManual(s: Store, m: Id, kind: ProviderKind, tmdbId: string): Store
    requires m in s.media
  {
    var row := IdentityOfMedia(s, m);
    var identity := Identity(m, kind, tmdbId, ManualEvidence);
    s.(media := if row.Some? && s.identities[row.value].externalId != tmdbId
                then s.media[m := s.media[m].(poster := None)] else s.media,
       identities := s.identities[(if row.Some? then row.value else s.nextId) := identity],
       nextId := if row.Some? then s.nextId else s.nextId + 1,
       bindings := map r | r in s.bindings ::
         if s.bindings[r].media == m then s.bindings[r].(evidence := ManualEvidence) else s.bindings[r])
  }

  ghost function ManuallyIdentified(s: Store, m: Id, tmdbId: string): (Store, Id)
    requires m in s.media && Inv(s)
  {
    var kind := ProviderKindFor(s.media[m].kind);
    var (s1, m1) := Unmerged(s, m, tmdbId);
    (MadeManual(s1, m1, kind, tmdbId), m1)
  }

  predicate Referenced(s: Store, m: Id) {
    (exists e :: e in s.entries && s.entries[e] == m) || (exists r :: r in s.bindings && s.bindings[r].media == m)
  }

  /** The items in `kept`, and what is cascaded with them. */
  function Restricted(s: Store, kept: set<Id>): Store {
    s.(media := map m | m in s.media && m in kept :: s.media[m],
       identities := map r | r in s.identities && s.identities[r].media in kept :: s.identities[r],
       aliases := set a | a in s.aliases && a.0 in kept)
  }

  function WithoutOrphans(s: Store): Store {
    Restricted(s, set m | m in s.media && Referenced(s, m))
  }

  lemma RestrictedToReferenced(s: Store, kept: set<Id>)
    requires Inv(s) && forall m :: m in kept <==> Referenced(s, m)
    ensures Restricted(s, kept) == WithoutOrphans(s)
  {
    hide Referenced;
    var referenced := set m | m in s.media && Referenced(s, m);
    assert forall m :: m in s.media ==> (m in kept <==> m in referenced);
    SameRestriction(s, kept, referenced);
  }

  lemma SameRestriction(s: Store, a: set<Id>, b: set<Id>)
    requires Inv(s) && forall m :: m in s.media ==> (m in a <==> m in b)
    ensures Restricted(s, a) == Restricted(s, b)
  {
    assert Restricted(s, a).media == Restricted(s, b).media;
    assert Restricted(s, a).identities == Restricted(s, b).identities;
    assert Restricted(s, a).aliases == Restricted(s, b).aliases;
  }

  function Linked(s: Store, entry: string, m: Id): Store {
    s.(entries := s.entries[entry := m])
  }

  // ---------- Every operation keeps the invariant ----------

  lemma AliasKeepsInv(s: Store, m: Id, alias: string, t: Text)
    requires Inv(s) && m in s.media
    ensures Inv(WithAlias(s, m, alias, t))
  {
  }

  lemma StrengthenedKeepsInv(s: Store, row: Id, w: MediaWrite, t: Text)
    requires Inv(s) && row in s.identities
    ensures Inv(Strengthened(s, row, w, t))
    ensures forall m :: m in s.media ==> m in Strengthened(s, row, w, t).media
  {
  }

  lemma InsertedKeepsInv(s: Store, w: MediaWrite)
    requires Inv(s)
    ensures Inv(Inserted(s, w)) && s.nextId in Inserted(s, w).media
    ensures forall r :: r in s.identities ==> s.identities[r].media != s.nextId
  {
  }

  lemma IdentifiedKeepsInv(s: Store, m: Id, w: MediaWrite)
    requires Inv(s) && m in s.media && w.tmdbId.Some?
    requires forall r :: !IdentityMatches(s, r, w.providerKind, w.tmdbId.value)
    requires forall r :: r in s.identities ==> s.identities[r].media != m
    ensures Inv(Identified(s, m, w))
  {
    hide IdentitiesOk;
    var identity := Identity(m, w.providerKind, w.tmdbId.value, EvidenceOf(w.authority, w.confidence, w.resolverVersion));
    forall r | r in s.identities
      ensures !Clash(s.identities[r], identity) && !Clash(identity, s.identities[r])
    {
      assert !IdentityMatches(s, r, w.providerKind, w.tmdbId.value);
    }
    PutIdentity(s.media, s.identities, s.nextId, identity);
  }

  lemma EnsuredKeepsInv(s: Store, w: MediaWrite, t: Text)
    requires Inv(s)
    ensures Inv(Ensured(s, w, t).0) && Ensured(s, w, t).1 in Ensured(s, w, t).0.media
  {
    hide IdentitiesOk, BindingsOk, EntriesOk, AliasesOk, IdsOk;
    var row := if w.tmdbId.Some? then IdentityRow(s, w.providerKind, w.tmdbId.value) else None;
    if row.Some? {
      IdentityHasMedia(s, row.value);
      StrengthenedKeepsInv(s, row.value, w, t);
      AliasKeepsInv(Strengthened(s, row.value, w, t), s.identities[row.value].media, w.title, t);
    } else {
      var found := UnidentifiedMedia(s, w);
      var m := if found.Some? then found.value else s.nextId;
      var s1 := if found.Some? then s else Inserted(s, w);
      InsertedKeepsInv(s, w);
      var s2 := if w.tmdbId.Some? then Identified(s1, m, w) else s1;
      if w.tmdbId.Some? {
        forall r ensures !IdentityMatches(s1, r, w.providerKind, w.tmdbId.value) {
          assert !IdentityMatches(s, r, w.providerKind, w.tmdbId.value);
        }
        IdentifiedKeepsInv(s1, m, w);
      }
      AliasKeepsInv(s2, m, w.title, t);
    }
  }

  lemma IdentityHasMedia(s: Store, r: Id)
    requires Inv(s) && r in s.identities
    ensures s.identities[r].media in s.media && Honest(s.identities[r].evidence)
  {
  }

  lemma BoundKeyKeepsInv(s: Store, m: Id, key: SourceKey, e: Evidence)
    requires Inv(s) && m in s.media && Honest(e)
    ensures BoundKey(s, m, key, e).Ok? ==> Inv(BoundKey(s, m, key, e).value) && BoundKey(s, m, key, e).value.media == s.media
  {
    hide IdentitiesOk, BindingsOk, EntriesOk, AliasesOk;
    var row := BindingRow(s, key);
    if row.None? {
      forall r | r in s.bindings ensures s.bindings[r].key != key {
        assert !BindingMatches(s, r, key);
      }
      PutBinding(s.media, s.bindings, s.nextId, Binding(m, key, e));
    } else {
      var b := s.bindings[row.value];
      OtherKeys(s, row.value);
      PutBinding(s.media, s.bindings, row.value,
                 Binding(m, key, if e.authoritative || !b.evidence.authoritative then e else b.evidence));
    }
  }

  lemma OtherKeys(s: Store, row: Id)
    requires BindingsOk(s.media, s.bindings) && row in s.bindings
    ensures Honest(s.bindings[row].evidence)
    ensures forall r :: r in s.bindings && r != row ==> s.bindings[r].key != s.bindings[row].key
  {
  }

  lemma BoundSourcesKeepInv(s: Store, m: Id, w: BindingWrite, t: Text)
    requires Inv(s) && m in s.media
    ensures Inv(BoundSources(s, m, w, t).0)
  {
    hide Inv, BoundKey;
    var e := EvidenceOf(w.authority, w.confidence, w.resolverVersion);
    if w.itemId.Some? {
      BoundKeyKeepsInv(s, m, ItemKey(w.sourceKind, w.itemId.value), e);
    }
    var first := if w.itemId.Some? then BoundKey(s, m, ItemKey(w.sourceKind, w.itemId.value), e) else Ok(s);
    if first.Ok? {
      if NormalizedHash(w, t).Some? {
        BoundKeyKeepsInv(first.value, m, HashKey(NormalizedHash(w, t).value), e);
      }
      var hash := NormalizedHash(w, t);
      var second := if hash.Some? then BoundKey(first.value, m, HashKey(hash.value), e) else first;
      if second.Ok? {
        AliasKeepsInv(second.value, m, w.title, t);
      }
    }
  }

  lemma MergedKeepsInv(s: Store, target: Id, duplicate: Id)
    requires Inv(s) && target in s.media && duplicate in s.media && target != duplicate
    ensures Inv(Merged(s, target, duplicate))
  {
    var s' := Merged(s, target, duplicate);
    assert IdentitiesOk(s'.media, s'.identities);
    assert BindingsOk(s'.media, s'.bindings);
    assert IdsOk(s');
  }

  lemma MadeManualKeepsIdentities(s: Store, m: Id, kind: ProviderKind, tmdbId: string)
    requires Inv(s) && m in s.media
    requires forall r :: IdentityMatches(s, r, kind, tmdbId) ==> s.identities[r].media == m
    ensures IdentitiesOk(s.media, MadeManual(s, m, kind, tmdbId).identities)
  {
    hide BindingsOk, EntriesOk, AliasesOk, IdsOk;
    var row := IdentityOfMedia(s, m);
    var changed := if row.Some? then row.value else s.nextId;
    var identity := Identity(m, kind, tmdbId, ManualEvidence);
    forall r | r in s.identities && r != changed
      ensures !Clash(s.identities[r], identity) && !Clash(identity, s.identities[r])
    {
      if row.Some? {
        assert !Clash(s.identities[r], s.identities[row.value]);
      } else {
        assert !IdentityBelongs(s, r, m);
      }
      assert !IdentityMatches(s, r, kind, tmdbId);
    }
    PutIdentity(s.media, s.identities, changed, identity);
  }

  lemma MadeManualKeepsInv(s: Store, m: Id, kind: ProviderKind, tmdbId: string)
    requires Inv(s) && m in s.media
    requires forall r :: IdentityMatches(s, r, kind, tmdbId) ==> s.identities[r].media == m
    ensures Inv(MadeManual(s, m, kind, tmdbId))
  {
    hide IdentitiesOk;
    MadeManualKeepsIdentities(s, m, kind, tmdbId);
    var s' := MadeManual(s, m, kind, tmdbId);
    IdentitiesOkDomain(s.media, s'.media, s'.identities);
    assert BindingsOk(s'.media, s'.bindings);
  }

  lemma IdentitiesOkDomain(media: map<Id, Media>, media': map<Id, Media>, identities: map<Id, Identity>)
    requires IdentitiesOk(media, identities) && media.Keys <= media'.Keys
    ensures IdentitiesOk(media', identities)
  {
  }

  lemma ManuallyIdentifiedKeepsInv(s: Store, m: Id, tmdbId: string)
    requires Inv(s) && m in s.media
    ensures Inv(ManuallyIdentified(s, m, tmdbId).0)
    ensures ManuallyIdentified(s, m, tmdbId).1 in ManuallyIdentified(s, m, tmdbId).0.media
  {
    var kind := ProviderKindFor(s.media[m].kind);
    var owner := IdentityRow(s, kind, tmdbId);
    var (s1, m1) := Unmerged(s, m, tmdbId);
    OwnerIsUnique(s, kind, tmdbId);
    if owner.Some? && s.identities[owner.value].media != m {
      MergedKeepsInv(s, m1, m);
    }
    forall r | IdentityMatches(s1, r, kind, tmdbId) ensures s1.identities[r].media == m1 {
      assert IdentityMatches(s, r, kind, tmdbId);
    }
    MadeManualKeepsInv(s1, m1, kind, tmdbId);
  }

  lemma OwnerIsUnique(s: Store, kind: ProviderKind, externalId: string)
    requires Inv(s)
    ensures forall r: Id :: IdentityMatches(s, r, kind, externalId) ==> IdentityRow(s, kind, externalId) == Some(r)
  {
  }

  lemma WithoutOrphansKeepsInv(s: Store)
    requires Inv(s)
    ensures Inv(WithoutOrphans(s))
    ensures WithoutOrphans(s).entries == s.entries && WithoutOrphans(s).bindings == s.bindings
  {
    var s' := WithoutOrphans(s);
    assert IdentitiesOk(s'.media, s'.identities);
    assert BindingsOk(s'.media, s'.bindings);
    assert EntriesOk(s'.media, s'.entries);
  }

  // ---------- Runs ----------

  datatype Operation =
    | EnsureMedia(media: MediaWrite)
    | BindSources(target: Id, binding: BindingWrite)
    | SetManual(item: Id, tmdbId: string)
    | DeleteOrphans
    | LinkEntry(entry: string, owner: Id)

  /** One committed operation.  A conflict is rolled back; an item that does not exist is not passed. */
  ghost function Applied(s: Store, op: Operation, t: Text): Store
    requires Inv(s)
  {
    match op
    case EnsureMedia(w) => Ensured(s, w, t).0
    case BindSources(m, w) => if m in s.media && !BoundSources(s, m, w, t).1 then BoundSources(s, m, w, t).0 else s
    case SetManual(m, tmdbId) => if m in s.media then ManuallyIdentified(s, m, tmdbId).0 else s
    case DeleteOrphans => WithoutOrphans(s)
    case LinkEntry(e, m) => if m in s.media then Linked(s, e, m) else s
  }

  lemma LinkedKeepsInv(s: Store, entry: string, m: Id)
    requires Inv(s) && m in s.media
    ensures Inv(Linked(s, entry, m))
  {
  }

  lemma AppliedKeepsInv(s: Store, op: Operation, t: Text)
    requires Inv(s)
    ensures Inv(Applied(s, op, t))
  {
    hide Inv, Ensured, BoundSources, ManuallyIdentified, WithoutOrphans, Linked;
    match op
    case EnsureMedia(w) => EnsuredKeepsInv(s, w, t);
    case BindSources(m, w) => if m in s.media { BoundSourcesKeepInv(s, m, w, t); }
    case SetManual(m, tmdbId) => if m in s.media { ManuallyIdentifiedKeepsInv(s, m, tmdbId); }
    case DeleteOrphans => WithoutOrphansKeepsInv(s);
    case LinkEntry(e, m) => if m in s.media { LinkedKeepsInv(s, e, m); }
  }

  /** Nothing that a user depends on disappears: every entry stays, and every source key stays bound. */
  ghost predicate KeepsEntriesAndKeys(s: Store, s': Store) {
    && s.entries.Keys <= s'.entries.Keys
    && forall r :: r in s.bindings ==> r in s'.bindings && s'.bindings[r].key == s.bindings[r].key
  }

  lemma BoundKeyKeepsAll(s: Store, m: Id, key: SourceKey, e: Evidence)
    requires Inv(s)
    ensures BoundKey(s, m, key, e).Ok? ==>
              && KeepsEntriesAndKeys(s, BoundKey(s, m, key, e).value)
              && BoundKey(s, m, key, e).value.entries == s.entries
  {
  }

  lemma BoundSourcesKeepAll(s: Store, m: Id, w: BindingWrite, t: Text)
    requires Inv(s) && m in s.media
    ensures KeepsEntriesAndKeys(s, BoundSources(s, m, w, t).0)
  {
    hide BoundKey, Inv;
    var e := EvidenceOf(w.authority, w.confidence, w.resolverVersion);
    if w.itemId.Some? {
      BoundKeyKeepsAll(s, m, ItemKey(w.sourceKind, w.itemId.value), e);
      BoundKeyKeepsInv(s, m, ItemKey(w.sourceKind, w.itemId.value), e);
    }
    var first := if w.itemId.Some? then BoundKey(s, m, ItemKey(w.sourceKind, w.itemId.value), e) else Ok(s);
    if first.Ok? && NormalizedHash(w, t).Some? {
      BoundKeyKeepsAll(first.value, m, HashKey(NormalizedHash(w, t).value), e);
    }
  }

  lemma EnsuredKeepsAll(s: Store, w: MediaWrite, t: Text)
    requires Inv(s)
    ensures Ensured(s, w, t).0.entries == s.entries && Ensured(s, w, t).0.bindings == s.bindings
  {
    hide BindingsOk, EntriesOk, AliasesOk, IdentitiesOk, IdsOk;
    var row := if w.tmdbId.Some? then IdentityRow(s, w.providerKind, w.tmdbId.value) else None;
    if row.Some? {
      IdentityHasMedia(s, row.value);
    }
  }

  lemma ManuallyIdentifiedKeepsAll(s: Store, m: Id, tmdbId: string)
    requires Inv(s) && m in s.media
    ensures KeepsEntriesAndKeys(s, ManuallyIdentified(s, m, tmdbId).0)
  {
  }

  lemma AppliedKeepsAll(s: Store, op: Operation, t: Text)
    requires Inv(s)
    ensures KeepsEntriesAndKeys(s, Applied(s, op, t))
  {
    hide Inv, Ensured, BoundSources, ManuallyIdentified;
    match op
    case EnsureMedia(w) => EnsuredKeepsAll(s, w, t);
    case BindSources(m, w) => if m in s.media { BoundSourcesKeepAll(s, m, w, t); }
    case SetManual(m, tmdbId) => if m in s.media { ManuallyIdentifiedKeepsAll(s, m, tmdbId); }
    case _ =>
  }

  ghost function Run(s: Store, ops: seq<Operation>, t: Text): Store
    requires Inv(s)
    decreases |ops|
  {
    if ops == [] then s
    else
      AppliedKeepsInv(s, ops[0], t);
      Run(Applied(s, ops[0], t), ops[1..], t)
  }

  /** Over every sequence of operations the tables keep their uniqueness rules, no entry is lost or
      left pointing at a deleted item, and every source key that was bound stays bound. */
  lemma {:induction false} RunKeepsStore(s: Store, ops: seq<Operation>, t: Text)
    requires Inv(s)
    ensures Inv(Run(s, ops, t)) && KeepsEntriesAndKeys(s, Run(s, ops, t))
    decreases |ops|
  {
    hide Inv, Applied;
    if ops != [] {
      AppliedKeepsInv(s, ops[0], t);
      AppliedKeepsAll(s, ops[0], t);
      RunKeepsStore(Applied(s, ops[0], t), ops[1..], t);
    }
  }

  // ---------- Merging, and who owns what ----------

  /** Whatever either item owned belongs to the survivor, what it took over by hand; the identities of the other are gone, and
      nothing else changes. */
  lemma MergeUnitesOwnership(s: Store, target: Id, duplicate: Id)
    requires Inv(s) && target in s.media && duplicate in s.media && target != duplicate
    ensures var s' := Merged(s, target, duplicate);
            && s'.media == s.media - {duplicate}
            && (forall r :: r in s.bindings ==>
                  && r in s'.bindings && s'.bindings[r].key == s.bindings[r].key
                  && s'.bindings[r].media == (if s.bindings[r].media == duplicate then target else s.bindings[r].media)
                  && (s.bindings[r].media == duplicate ==> s'.bindings[r].evidence == ManualEvidence)
                  && (s.bindings[r].media != duplicate ==> s'.bindings[r] == s.bindings[r]))
            && (forall r :: r in s'.identities <==> r in s.identities && s.identities[r].media != duplicate)
            && (forall r :: r in s'.identities ==> s'.identities[r] == s.identities[r])
            && (forall e :: e in s.entries ==>
                  e in s'.entries && s'.entries[e] == if s.entries[e] == duplicate then target else s.entries[e])
            && (forall a :: a in s.aliases ==> (if a.0 == duplicate then (target, a.1) else a) in s'.aliases)
            && s'.bindings.Keys == s.bindings.Keys && s'.entries.Keys == s.entries.Keys
  {
  }

  /** After a manual identification exactly one item carries the TMDB identity: the one returned.  It
      is authoritative, and so is every source that the item owns. */
  lemma ManualIdentityIsInForce(s: Store, m: Id, tmdbId: string)
    requires Inv(s) && m in s.media
    ensures var (s', m') := ManuallyIdentified(s, m, tmdbId);
            && (exists r :: IdentityBelongs(s', r, m')
                  && s'.identities[r] == Identity(m', ProviderKindFor(s.media[m].kind), tmdbId, ManualEvidence))
            && (forall r :: r in s'.bindings && s'.bindings[r].media == m' ==> s'.bindings[r].evidence == ManualEvidence)
            && (forall r :: r in s.bindings && s.bindings[r].media in {m, m'} ==>
                  r in s'.bindings && s'.bindings[r].media == m' && s'.bindings[r].key == s.bindings[r].key)
            && (forall e :: e in s.entries && s.entries[e] in {m, m'} ==> e in s'.entries && s'.entries[e] == m')
            && (m' != m ==> m !in s'.media)
  {
    var (s', m') := ManuallyIdentified(s, m, tmdbId);
    var (s1, m1) := Unmerged(s, m, tmdbId);
    var row := IdentityOfMedia(s1, m1);
    assert IdentityBelongs(s', if row.Some? then row.value else s1.nextId, m');
  }

  // ---------- Authority ----------

  /** `ensure_media` keeps every identity with its item, and never lowers its priority. */
  lemma EnsuredNeverWeakens(s: Store, w: MediaWrite, t: Text, r: Id)
    requires Inv(s) && r in s.identities
    ensures var s' := Ensured(s, w, t).0;
            && r in s'.identities
            && s'.identities[r].(evidence := s.identities[r].evidence) == s.identities[r]
            && s'.identities[r].evidence.authority.Priority() >= s.identities[r].evidence.authority.Priority()
            && (s.identities[r].evidence.authoritative ==> s'.identities[r] == s.identities[r])
  {
    hide BindingsOk, EntriesOk, AliasesOk, IdentitiesOk, WithAlias;
    var row := if w.tmdbId.Some? then IdentityRow(s, w.providerKind, w.tmdbId.value) else None;
    if row.Some? {
      IdentityHasMedia(s, row.value);
      AliasOnly(Strengthened(s, row.value, w, t), s.identities[row.value].media, w.title, t);
      IdentityHasMedia(s, r);
    } else {
      var found := UnidentifiedMedia(s, w);
      var m := if found.Some? then found.value else s.nextId;
      var s1 := if found.Some? then s else Inserted(s, w);
      AliasOnly(if w.tmdbId.Some? then Identified(s1, m, w) else s1, m, w.title, t);
    }
  }

  lemma AliasOnly(s: Store, m: Id, alias: string, t: Text)
    ensures WithAlias(s, m, alias, t) == s.(aliases := WithAlias(s, m, alias, t).aliases)
  {
  }

  /** A TMDB identity that is already known decides the item; a new one is recorded for the item returned. */
  lemma EnsuredFollowsIdentity(s: Store, w: MediaWrite, t: Text)
    requires Inv(s) && w.tmdbId.Some?
    ensures var (s', m) := Ensured(s, w, t);
            && (exists r :: IdentityMatches(s', r, w.providerKind, w.tmdbId.value) && s'.identities[r].media == m)
            && (forall r :: IdentityMatches(s, r, w.providerKind, w.tmdbId.value) ==> s.identities[r].media == m)
  {
    var row := IdentityRow(s, w.providerKind, w.tmdbId.value);
    OwnerIsUnique(s, w.providerKind, w.tmdbId.value);
    var (s', m) := Ensured(s, w, t);
    if row.Some? {
      assert IdentityMatches(s', row.value, w.providerKind, w.tmdbId.value);
    } else {
      var s1 := if UnidentifiedMedia(s, w).Some? then s else Inserted(s, w);
      assert IdentityMatches(s', s1.nextId, w.providerKind, w.tmdbId.value);
    }
  }

  /** A binding changes hands exactly when it is not authoritative; a conflict arises exactly when both
      it and the write for another item are.  The authoritative flag is never lost. */
  lemma BindingMovesOnlyWhenWeak(s: Store, m: Id, key: SourceKey, e: Evidence, r: Id)
    requires Inv(s) && m in s.media && Honest(e) && BindingMatches(s, r, key)
    ensures var b, result := s.bindings[r], BoundKey(s, m, key, e);
            && (result.Raised? <==> b.media != m && b.evidence.authoritative && e.authoritative)
            && (result.Ok? ==>
                  && r in result.value.bindings
                  && (result.value.bindings[r].media == if b.evidence.authoritative then b.media else m)
                  && (b.evidence.authoritative ==> result.value.bindings[r].evidence.authoritative)
                  && (b.evidence.authoritative && !e.authoritative ==> result.value == s))
  {
    assert BindingRow(s, key) == Some(r) by {
      assert BindingMatches(s, r, key);
    }
  }

  /** What authority a binding keeps from one state to a later one: it stays authoritative, and it stays with its
      item unless that item is gone, which only a merge brings about. */
  ghost predicate KeepsAuthority(s: Store, s': Store) {
    && s.nextId <= s'.nextId
    && (forall m :: m in s'.media ==> m in s.media || m >= s.nextId)
    && forall r :: r in s.bindings && s.bindings[r].evidence.authoritative ==>
         && r in s'.bindings && s'.bindings[r].key == s.bindings[r].key && s'.bindings[r].evidence.authoritative
         && (s'.bindings[r].media == s.bindings[r].media || s.bindings[r].media !in s'.media)
  }

  lemma BoundKeyKeepsAuthority(s: Store, m: Id, key: SourceKey, e: Evidence)
    requires Inv(s) && m in s.media && Honest(e)
    ensures var result := BoundKey(s, m, key, e); result.Ok? ==> KeepsAuthority(s, result.value)
  {
    hide IdentitiesOk, EntriesOk, AliasesOk;
    var row := BindingRow(s, key);
    if row.Some? {
      BindingMovesOnlyWhenWeak(s, m, key, e, row.value);
    }
  }

  lemma AuthorityKeptTwice(s: Store, s1: Store, s2: Store)
    requires Inv(s) && KeepsAuthority(s, s1) && KeepsAuthority(s1, s2)
    ensures KeepsAuthority(s, s2)
  {
    hide IdentitiesOk, EntriesOk, AliasesOk;
    forall r | r in s.bindings && s.bindings[r].evidence.authoritative
      ensures s2.bindings[r].media == s.bindings[r].media || s.bindings[r].media !in s2.media
    {
      assert s.bindings[r].media in s.media;
    }
  }

  lemma AliasKeepsAuthority(s: Store, m: Id, alias: string, t: Text)
    ensures KeepsAuthority(s, WithAlias(s, m, alias, t))
  {
  }

  lemma BoundSourcesKeepAuthority(s: Store, m: Id, w: BindingWrite, t: Text)
    requires Inv(s) && m in s.media
    ensures KeepsAuthority(s, BoundSources(s, m, w, t).0)
  {
    hide BoundKey, Inv, KeepsAuthority;
    var e, hash := EvidenceOf(w.authority, w.confidence, w.resolverVersion), NormalizedHash(w, t);
    var first := if w.itemId.Some? then BoundKey(s, m, ItemKey(w.sourceKind, w.itemId.value), e) else Ok(s);
    NothingKeepsAuthority(s);
    if w.itemId.Some? {
      BoundKeyKeepsAuthority(s, m, ItemKey(w.sourceKind, w.itemId.value), e);
      BoundKeyKeepsInv(s, m, ItemKey(w.sourceKind, w.itemId.value), e);
    }
    if first.Ok? {
      var s1 := first.value;
      var second := if hash.Some? then BoundKey(s1, m, HashKey(hash.value), e) else first;
      if hash.Some? {
        BoundKeyKeepsAuthority(s1, m, HashKey(hash.value), e);
      } else {
        NothingKeepsAuthority(s1);
      }
      if second.Ok? {
        AuthorityKeptTwice(s, s1, second.value);
        AliasKeepsAuthority(second.value, m, w.title, t);
        AuthorityKeptTwice(s, second.value, WithAlias(second.value, m, w.title, t));
      }
    }
  }

  lemma NothingKeepsAuthority(s: Store)
    ensures KeepsAuthority(s, s)
  {
  }

  lemma EnsuredKeepsAuthority(s: Store, w: MediaWrite, t: Text)
    requires Inv(s)
    ensures KeepsAuthority(s, Ensured(s, w, t).0)
  {
    EnsuredKeepsAll(s, w, t);
    hide BindingsOk, EntriesOk, AliasesOk, IdentitiesOk;
    var row := if w.tmdbId.Some? then IdentityRow(s, w.providerKind, w.tmdbId.value) else None;
    if row.Some? {
      IdentityHasMedia(s, row.value);
    }
  }

  lemma ManuallyIdentifiedKeepsAuthority(s: Store, m: Id, tmdbId: string)
    requires Inv(s) && m in s.media
    ensures KeepsAuthority(s, ManuallyIdentified(s, m, tmdbId).0)
  {
    hide EntriesOk, AliasesOk;
    var (s1, m1) := Unmerged(s, m, tmdbId);
    assert KeepsAuthority(s, s1);
  }

  lemma AppliedKeepsAuthority(s: Store, op: Operation, t: Text)
    requires Inv(s)
    ensures KeepsAuthority(s, Applied(s, op, t))
  {
    hide Inv, Ensured, BoundSources, ManuallyIdentified, KeepsAuthority;
    NothingKeepsAuthority(s);
    match op
    case EnsureMedia(w) => EnsuredKeepsAuthority(s, w, t);
    case BindSources(m, w) => if m in s.media { BoundSourcesKeepAuthority(s, m, w, t); }
    case SetManual(m, tmdbId) => if m in s.media { ManuallyIdentifiedKeepsAuthority(s, m, tmdbId); }
    case DeleteOrphans => OrphansKeepAuthority(s);
    case LinkEntry(e, m) => LinkedKeepsAuthority(s, e, m);
  }

  lemma OrphansKeepAuthority(s: Store)
    requires Inv(s)
    ensures KeepsAuthority(s, WithoutOrphans(s))
  {
  }

  lemma LinkedKeepsAuthority(s: Store, entry: string, m: Id)
    ensures KeepsAuthority(s, Linked(s, entry, m))
  {
  }

  /** Over every sequence of operations an authoritative binding stays authoritative for its key, and changes its
      owner only when that owner no longer exists. */
  lemma {:induction false} RunKeepsAuthority(s: Store, ops: seq<Operation>, t: Text)
    requires Inv(s)
    ensures KeepsAuthority(s, Run(s, ops, t))
    decreases |ops|
  {
    hide Inv, Applied, KeepsAuthority;
    if ops == [] {
      NothingKeepsAuthority(s);
    } else {
      AppliedKeepsInv(s, ops[0], t);
      AppliedKeepsAuthority(s, ops[0], t);
      RunKeepsAuthority(Applied(s, ops[0], t), ops[1..], t);
      AuthorityKeptTwice(s, Applied(s, ops[0], t), Run(s, ops, t));
    }
  }

  /** The owner of an authoritative binding is never deleted as an orphan: it goes in a merge, in which the binding
      follows to the survivor. */
  lemma OwnerGoesOnlyInMerge(s: Store, op: Operation, t: Text, r: Id)
    requires Inv(s) && r in s.bindings && s.bindings[r].media !in Applied(s, op, t).media
    ensures op.SetManual? && op.item == s.bindings[r].media
    ensures var (s', m') := ManuallyIdentified(s, op.item, op.tmdbId);
            m' in s'.media && r in s'.bindings && s'.bindings[r].media == m' && s'.bindings[r].evidence == ManualEvidence
  {
    hide IdentitiesOk, EntriesOk, AliasesOk, IdsOk, BoundSources, Ensured, ManuallyIdentified, Linked;
    var owner := s.bindings[r].media;
    assert owner in s.media;
    match op {
      case EnsureMedia(w) => EnsuredKeepsMedia(s, w, t, owner);
      case BindSources(m, w) => if m in s.media { BoundSourcesKeepMedia(s, m, w, t); }
      case SetManual(m, tmdbId) =>
        if m in s.media {
          if m != owner {
            ManuallyIdentifiedKeepsMedia(s, m, tmdbId, owner);
          }
          ManualIdentityIsInForce(s, m, tmdbId);
          ManuallyIdentifiedKeepsInv(s, m, tmdbId);
        }
      case DeleteOrphans => OwnersStay(s, r);
      case LinkEntry(e, m) => LinkedKeepsMedia(s, e, m);
    }
  }

  lemma OwnersStay(s: Store, r: Id)
    requires Inv(s) && r in s.bindings
    ensures s.bindings[r].media in WithoutOrphans(s).media
  {
    assert Referenced(s, s.bindings[r].media);
  }

  lemma EnsuredKeepsMedia(s: Store, w: MediaWrite, t: Text, m: Id)
    requires Inv(s) && m in s.media
    ensures m in Ensured(s, w, t).0.media
  {
    hide BindingsOk, EntriesOk, AliasesOk, IdentitiesOk;
    var row := if w.tmdbId.Some? then IdentityRow(s, w.providerKind, w.tmdbId.value) else None;
    if row.Some? {
      IdentityHasMedia(s, row.value);
    }
  }

  lemma BoundSourcesKeepMedia(s: Store, m: Id, w: BindingWrite, t: Text)
    ensures BoundSources(s, m, w, t).0.media == s.media
  {
    hide BoundKey, BindingRow;
    var e, hash := EvidenceOf(w.authority, w.confidence, w.resolverVersion), NormalizedHash(w, t);
    if w.itemId.Some? {
      BoundKeyKeepsMedia(s, m, ItemKey(w.sourceKind, w.itemId.value), e);
    }
    var first := if w.itemId.Some? then BoundKey(s, m, ItemKey(w.sourceKind, w.itemId.value), e) else Ok(s);
    if first.Ok? && hash.Some? {
      BoundKeyKeepsMedia(first.value, m, HashKey(hash.value), e);
    }
  }

  lemma BoundKeyKeepsMedia(s: Store, m: Id, key: SourceKey, e: Evidence)
    ensures BoundKey(s, m, key, e).Ok? ==> BoundKey(s, m, key, e).value.media == s.media
  {
  }

  lemma BoundSourcesKeepIdentities(s: Store, m: Id, w: BindingWrite, t: Text)
    ensures BoundSources(s, m, w, t).0.identities == s.identities
  {
    hide BoundKey;
    var e, hash := EvidenceOf(w.authority, w.confidence, w.resolverVersion), NormalizedHash(w, t);
    if w.itemId.Some? {
      BoundKeyKeepsIdentities(s, m, ItemKey(w.sourceKind, w.itemId.value), e);
    }
    var first := if w.itemId.Some? then BoundKey(s, m, ItemKey(w.sourceKind, w.itemId.value), e) else Ok(s);
    if first.Ok? && hash.Some? {
      BoundKeyKeepsIdentities(first.value, m, HashKey(hash.value), e);
    }
  }

  lemma BoundKeyKeepsIdentities(s: Store, m: Id, key: SourceKey, e: Evidence)
    ensures BoundKey(s, m, key, e).Ok? ==> BoundKey(s, m, key, e).value.identities == s.identities
  {
    hide BindingRow;
  }

  lemma ManuallyIdentifiedKeepsMedia(s: Store, m: Id, tmdbId: string, other: Id)
    requires Inv(s) && m in s.media && other in s.media && other != m
    ensures other in ManuallyIdentified(s, m, tmdbId).0.media
  {
    hide BindingsOk, EntriesOk, AliasesOk, IdsOk;
  }

  lemma LinkedKeepsMedia(s: Store, entry: string, m: Id)
    ensures Linked(s, entry, m).media == s.media
  {
  }

  /** The priority of a binding, unlike its flag, can drop.  Whatever item it belongs to, it does exactly when
      the write has less of it and either the binding is not authoritative, or both are and the item is the same. */
  lemma BindingPriorityDrops(s: Store, m: Id, key: SourceKey, e: Evidence, r: Id)
    requires Inv(s) && m in s.media && Honest(e) && BindingMatches(s, r, key)
    ensures var b, result := s.bindings[r], BoundKey(s, m, key, e);
            result.Ok? ==>
              && r in result.value.bindings
              && (result.value.bindings[r].evidence.authority.Priority() < b.evidence.authority.Priority()
                  <==> && e.authority.Priority() < b.evidence.authority.Priority()
                       && (b.evidence.authoritative ==> b.media == m && e.authoritative))
  {
    BindingMovesOnlyWhenWeak(s, m, key, e, r);
    assert BindingRow(s, key) == Some(r) by {
      assert BindingMatches(s, r, key);
    }
  }

  /** For an authoritative binding that leaves one case: a search-confirmed write meets a manual binding. */
  lemma AuthoritativePriorityDrops(s: Store, m: Id, key: SourceKey, e: Evidence, r: Id)
    requires Inv(s) && m in s.media && Honest(e) && BindingMatches(s, r, key) && s.bindings[r].evidence.authoritative
    ensures var b, result := s.bindings[r], BoundKey(s, m, key, e);
            result.Ok? ==>
              && r in result.value.bindings
              && (result.value.bindings[r].evidence.authority.Priority() < b.evidence.authority.Priority()
                  <==> b.media == m && b.evidence.authority.Manual? && e.authority.SearchConfirmed?)
  {
    BindingPriorityDrops(s, m, key, e, r);
    hide Inv, BoundKey, BindingMatches;
    assert Honest(s.bindings[r].evidence) by {
      BindingIsHonest(s, r);
    }
  }

  lemma BindingIsHonest(s: Store, r: Id)
    requires Inv(s) && r in s.bindings
    ensures Honest(s.bindings[r].evidence)
  {
  }

  /** Two items, the first of which owns one source key. */
  function TwoItems(key: SourceKey, e: Evidence): Store {
    var film := Media(Movie, "movies", "X", None, None);
    Store(map[0 := film, 1 := film], map[], map[2 := Binding(0, key, e)], map[], {}, 3)
  }

  lemma TwoItemsMatch(key: SourceKey, e: Evidence)
    requires Honest(e)
    ensures Inv(TwoItems(key, e)) && BindingRow(TwoItems(key, e), key) == Some(2)
  {
    assert BindingMatches(TwoItems(key, e), 2, key);
  }

  /** A fallback write for the same item, or for the other one, takes a migrated binding down to the lowest priority. */
  lemma MigratedBindingFalls(key: SourceKey, m: Id)
    requires m in {0, 1}
    ensures var s, e := TwoItems(key, EvidenceOf(Migrated, None, None)), EvidenceOf(Fallback, None, None);
            var result := BoundKey(s, m, key, e);
            && Inv(s) && result.Ok? && result.value.bindings[2] == Binding(m, key, e)
            && e.authority.Priority() < s.bindings[2].evidence.authority.Priority()
  {
    TwoItemsMatch(key, EvidenceOf(Migrated, None, None));
  }

  /** A search-confirmed write takes a manual binding of the same item down. */
  lemma ManualBindingFalls(key: SourceKey)
    ensures var s, e := TwoItems(key, ManualEvidence), EvidenceOf(SearchConfirmed, None, None);
            var result := BoundKey(s, 0, key, e);
            && Inv(s) && result.Ok? && result.value.bindings[2] == Binding(0, key, e)
            && e.authority.Priority() < s.bindings[2].evidence.authority.Priority()
  {
    TwoItemsMatch(key, ManualEvidence);
  }
}
