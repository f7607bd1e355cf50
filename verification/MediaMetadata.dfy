/** What the media items say: which writes reach title, year and poster, and what no write takes away. */
module MediaMetadata {
  import opened Common
  import opened MediaIdentity

  // ---------- One write ----------

  predicate FromSearchOrHand(a: Authority) {
    a.Manual? || a.SearchConfirmed?
  }

  /** The strength of an authority: by hand, confirmed in a search, migrated, resolved by the provider, or none at all; the
      first two are authoritative. */
  lemma AuthorityOrder()
    ensures Manual.Priority() > SearchConfirmed.Priority() > Migrated.Priority() > ProviderResolved.Priority()
            > Fallback.Priority()
    ensures forall a: Authority :: a.Authoritative() <==> FromSearchOrHand(a)
  {
  }

  /** A write that is sure of itself, for an identity that is not, decides title and year, and the poster unless it has
      none; any other only fills in what is missing.  Kind and category stay. */
  predicate Rewritten(was: Media, now: Media, sure: bool, w: MediaWrite, blank: string -> bool) {
    && now.kind == was.kind && now.category == was.category
    && (sure ==>
          && now.title == w.title && now.year == w.year
          && (w.poster.Some? && w.poster.value != "" ==> now.poster == w.poster)
          && (w.poster.None? || w.poster.value == "" ==> now.poster == was.poster))
    && (!sure ==>
          && (!blank(was.title) ==> now.title == was.title) && (blank(was.title) ==> now.title == w.title)
          && (was.year.Some? ==> now.year == was.year) && (was.year.None? ==> now.year == w.year)
          && (was.poster.Some? ==> now.poster == was.poster) && (was.poster.None? ==> now.poster == w.poster))
  }

  /** Of a known identity the item is rewritten, and its evidence replaced by stronger evidence; nothing else changes but
      for the alias. */
  lemma KnownItemIsRewritten(s: Store, w: MediaWrite, t: Text, r: Id)
    requires Inv(s) && w.tmdbId.Some? && IdentityMatches(s, r, w.providerKind, w.tmdbId.value)
    ensures var (s', m) := Ensured(s, w, t);
            var i, i' := s.identities[r], s'.identities[r];
            var sure := FromSearchOrHand(w.authority) && !FromSearchOrHand(i.evidence.authority);
            && m == i.media && m in s.media && s'.media.Keys == s.media.Keys
            && Rewritten(s.media[m], s'.media[m], sure, w, t.blank)
            && (forall n :: n in s.media && n != m ==> s'.media[n] == s.media[n])
            && i' == i.(evidence := i'.evidence)
            && (|| i'.evidence == i.evidence
                || (i'.evidence.authority == w.authority && i'.evidence.confidence == w.confidence
                    && i'.evidence.resolverVersion == w.resolverVersion))
            && (sure ==> i'.evidence.authority == w.authority)
            && (FromSearchOrHand(i.evidence.authority) ==> i'.evidence == i.evidence)
            && s'.identities == s.identities[r := i'] && s'.bindings == s.bindings && s'.entries == s.entries
  {
    OwnerIsUnique(s, w.providerKind, w.tmdbId.value);
    IdentityHasMedia(s, r);
    hide BindingsOk, EntriesOk, AliasesOk, IdsOk, IdentitiesOk;
  }

  /** The item carries no identity, and exactly the kind, category, title and year of the write. */
  ghost predicate Stands(s: Store, m: Id, w: MediaWrite) {
    && m in s.media && s.media[m].kind == w.kind && s.media[m].category == w.category && s.media[m].title == w.title
    && s.media[m].year == w.year && forall r :: r in s.identities ==> s.identities[r].media != m
  }

  lemma StandsIsUnidentified(s: Store, w: MediaWrite)
    ensures forall m :: m in Unidentified(s, w) <==> Stands(s, m, w)
  {
  }

  lemma OnlyOneStands(s: Store, m: Id, w: MediaWrite)
    requires Stands(s, m, w) && forall n :: Stands(s, n, w) ==> n == m
    ensures UnidentifiedMedia(s, w) == Some(m)
  {
    StandsIsUnidentified(s, w);
    assert Unidentified(s, w) == {m};
  }

  lemma TwoStand(s: Store, m: Id, n: Id, w: MediaWrite)
    requires Stands(s, m, w) && Stands(s, n, w) && m != n
    ensures UnidentifiedMedia(s, w).None?
  {
    StandsIsUnidentified(s, w);
    SubsetSize({m, n}, Unidentified(s, w));
  }

  lemma StandingItem(s: Store, w: MediaWrite)
    ensures var found := UnidentifiedMedia(s, w);
            && (found.Some? <==> exists n :: Stands(s, n, w) && forall o :: Stands(s, o, w) ==> o == n)
            && (found.Some? ==> Stands(s, found.value, w))
  {
    StandsIsUnidentified(s, w);
    var found := UnidentifiedMedia(s, w);
    if n :| Stands(s, n, w) && forall o :: Stands(s, o, w) ==> o == n {
      OnlyOneStands(s, n, w);
    } else if found.Some? {
      assert Stands(s, found.value, w);
      var o :| Stands(s, o, w) && o != found.value;
      TwoStand(s, found.value, o, w);
    }
  }

  /** Without a known identity the write goes to the one item that stands for it, which stays as it is, or else, if there is
      none or more than one, to a new one made of the write. */
  lemma UnknownItemIsFoundOrMade(s: Store, w: MediaWrite, t: Text)
    requires Inv(s) && (w.tmdbId.Some? ==> forall r :: !IdentityMatches(s, r, w.providerKind, w.tmdbId.value))
    ensures var (s', m) := Ensured(s, w, t);
            && (m in s.media <==> exists n :: Stands(s, n, w) && forall o :: Stands(s, o, w) ==> o == n)
            && (m in s.media ==> Stands(s, m, w) && s'.media == s.media)
            && (m !in s.media ==> s'.media == s.media[m := Media(w.kind, w.category, w.title, w.year, w.poster)])
            && (w.tmdbId.None? ==> s'.identities == s.identities) && s'.bindings == s.bindings && s'.entries == s.entries
  {
    StandingItem(s, w);
    assert s.nextId !in s.media;
    hide IdentitiesOk, BindingsOk, EntriesOk, AliasesOk, IdsOk, UnidentifiedMedia, IdentityRow, IdentityMatches;
  }

  /** A TMDB id that is new is recorded for the item returned, with the evidence of the write. */
  lemma NewIdentityIsRecorded(s: Store, w: MediaWrite, t: Text) returns (r: Id)
    requires Inv(s) && w.tmdbId.Some? && forall r :: !IdentityMatches(s, r, w.providerKind, w.tmdbId.value)
    ensures var (s', m) := Ensured(s, w, t);
            var evidence := Evidence(w.authority, FromSearchOrHand(w.authority), w.confidence, w.resolverVersion);
            && r !in s.identities
            && s'.identities == s.identities[r := Identity(m, w.providerKind, w.tmdbId.value, evidence)]
  {
    r := if UnidentifiedMedia(s, w).Some? then s.nextId else s.nextId + 1;
    assert forall q :: q in s.identities ==> q < s.nextId;
    hide IdentitiesOk, BindingsOk, EntriesOk, AliasesOk, IdsOk, UnidentifiedMedia, IdentityRow, IdentityMatches;
  }

  /** Either way exactly the alias of the title is added for the item returned, if it is one. */
  lemma TitleBecomesAlias(s: Store, w: MediaWrite, t: Text)
    requires Inv(s)
    ensures var (s', m) := Ensured(s, w, t);
            && (t.normalize(w.title) != "" ==> s'.aliases == s.aliases + {(m, t.normalize(w.title))})
            && (t.normalize(w.title) == "" ==> s'.aliases == s.aliases)
  {
    hide IdentitiesOk, BindingsOk, EntriesOk, AliasesOk, IdsOk;
    var row := if w.tmdbId.Some? then IdentityRow(s, w.providerKind, w.tmdbId.value) else None;
    if row.Some? {
      IdentityHasMedia(s, row.value);
    }
  }

  // ---------- All runs ----------

  /** The identity of the item was confirmed in a search or set by hand. */
  ghost predicate Certain(s: Store, m: Id) {
    m in s.media && exists r :: IdentityBelongs(s, r, m) && FromSearchOrHand(s.identities[r].evidence.authority)
  }

  /** Items that are certain, and still there, are certain still, and keep title and year if they have them. */
  ghost predicate KeepsNames(s: Store, s': Store, blank: string -> bool) {
    && s.nextId <= s'.nextId
    && (forall m :: m in s'.media ==> m in s.media || m >= s.nextId)
    && (forall m :: Certain(s, m) && m in s'.media ==>
          && Certain(s', m)
          && (!blank(s.media[m].title) ==> s'.media[m].title == s.media[m].title)
          && (s.media[m].year.Some? ==> s'.media[m].year == s.media[m].year))
  }

  lemma SameKeepsNames(s: Store, s': Store, blank: string -> bool)
    requires s.nextId <= s'.nextId && s'.media == s.media && s'.identities == s.identities
    ensures KeepsNames(s, s', blank)
  {
    forall m | Certain(s, m) ensures Certain(s', m) {
      var r :| IdentityBelongs(s, r, m) && FromSearchOrHand(s.identities[r].evidence.authority);
      assert IdentityBelongs(s', r, m);
    }
  }

  lemma NamesKeptTwice(s: Store, s1: Store, s2: Store, blank: string -> bool)
    requires Inv(s) && KeepsNames(s, s1, blank) && KeepsNames(s1, s2, blank)
    ensures KeepsNames(s, s2, blank)
  {
    hide IdentitiesOk, BindingsOk, EntriesOk, AliasesOk, Certain;
    forall m | Certain(s, m) && m in s2.media ensures m in s.media && m in s1.media {
      assert m in s.media by { CertainIsThere(s, m); }
    }
  }

  lemma CertainIsThere(s: Store, m: Id)
    requires Certain(s, m)
    ensures m in s.media
  {
  }

  lemma EnsuredKeepsNames(s: Store, w: MediaWrite, t: Text)
    requires Inv(s)
    ensures KeepsNames(s, Ensured(s, w, t).0, t.blank)
  {
    EnsuredKeepsAuthority(s, w, t);
    var (s', m) := Ensured(s, w, t);
    forall n | Certain(s, n) && n in s'.media
      ensures Certain(s', n)
      ensures !t.blank(s.media[n].title) ==> s'.media[n].title == s.media[n].title
      ensures s.media[n].year.Some? ==> s'.media[n].year == s.media[n].year
    {
      CertainStaysInEnsured(s, w, t, n);
    }
    hide Ensured, Inv, Certain;
  }

  lemma CertainStaysInEnsured(s: Store, w: MediaWrite, t: Text, n: Id)
    requires Inv(s) && Certain(s, n)
    ensures var s' := Ensured(s, w, t).0;
            && Certain(s', n)
            && (!t.blank(s.media[n].title) ==> s'.media[n].title == s.media[n].title)
            && (s.media[n].year.Some? ==> s'.media[n].year == s.media[n].year)
  {
    var s' := Ensured(s, w, t).0;
    var q :| IdentityBelongs(s, q, n) && FromSearchOrHand(s.identities[q].evidence.authority);
    IdentityHasMedia(s, q);
    EnsuredNeverWeakens(s, w, t, q);
    EnsuredKeepsMedia(s, w, t, n);
    OneIdentityPerItem(s, q, n);
    hide Inv, Ensured;
    assert IdentityBelongs(s', q, n);
    if w.tmdbId.Some? && exists r :: IdentityMatches(s, r, w.providerKind, w.tmdbId.value) {
      var r :| IdentityMatches(s, r, w.providerKind, w.tmdbId.value);
      KnownItemIsRewritten(s, w, t, r);
      assert s.identities[r].media == n ==> r == q;
    } else {
      UnknownItemIsFoundOrMade(s, w, t);
    }
  }

  lemma OneIdentityPerItem(s: Store, q: Id, n: Id)
    requires Inv(s) && IdentityBelongs(s, q, n)
    ensures forall r :: IdentityBelongs(s, r, n) ==> r == q
  {
  }

  lemma ManualKeepsNames(s: Store, m: Id, tmdbId: string, blank: string -> bool)
    requires Inv(s) && m in s.media
    ensures KeepsNames(s, ManuallyIdentified(s, m, tmdbId).0, blank)
  {
    ManuallyIdentifiedKeepsAuthority(s, m, tmdbId);
    var s' := ManuallyIdentified(s, m, tmdbId).0;
    forall n | Certain(s, n) && n in s'.media
      ensures Certain(s', n) && s'.media[n].title == s.media[n].title && s'.media[n].year == s.media[n].year
    {
      CertainStaysByHand(s, m, tmdbId, n);
    }
    hide ManuallyIdentified, Inv, Certain;
  }

  lemma CertainStaysByHand(s: Store, m: Id, tmdbId: string, n: Id)
    requires Inv(s) && m in s.media && Certain(s, n) && n in ManuallyIdentified(s, m, tmdbId).0.media
    ensures var s' := ManuallyIdentified(s, m, tmdbId).0;
            Certain(s', n) && s'.media[n].title == s.media[n].title && s'.media[n].year == s.media[n].year
  {
    var (s1, m1) := Unmerged(s, m, tmdbId);
    var s' := ManuallyIdentified(s, m, tmdbId).0;
    var q :| IdentityBelongs(s, q, n) && FromSearchOrHand(s.identities[q].evidence.authority);
    assert IdentityBelongs(s1, q, n);
    if n == m1 {
      var row := IdentityOfMedia(s1, m1);
      assert IdentityBelongs(s', row.value, n);
    } else {
      assert IdentityBelongs(s', q, n);
    }
  }

  lemma OrphansKeepNames(s: Store, blank: string -> bool)
    requires Inv(s)
    ensures KeepsNames(s, WithoutOrphans(s), blank)
  {
    var s' := WithoutOrphans(s);
    forall m | Certain(s, m) && m in s'.media ensures Certain(s', m) {
      var r :| IdentityBelongs(s, r, m) && FromSearchOrHand(s.identities[r].evidence.authority);
      assert IdentityBelongs(s', r, m);
    }
  }

  lemma BoundSourcesKeepNames(s: Store, m: Id, w: BindingWrite, t: Text)
    requires Inv(s) && m in s.media
    ensures KeepsNames(s, BoundSources(s, m, w, t).0, t.blank)
  {
    BoundSourcesKeepAuthority(s, m, w, t);
    BoundSourcesKeepMedia(s, m, w, t);
    BoundSourcesKeepIdentities(s, m, w, t);
    hide BoundSources, Inv;
    SameKeepsNames(s, BoundSources(s, m, w, t).0, t.blank);
  }

  lemma AppliedKeepsNames(s: Store, op: Operation, t: Text)
    requires Inv(s)
    ensures KeepsNames(s, Applied(s, op, t), t.blank)
  {
    SameKeepsNames(s, s, t.blank);
    hide Inv, Ensured, BoundSources, ManuallyIdentified, KeepsNames;
    match op
    case EnsureMedia(w) => EnsuredKeepsNames(s, w, t);
    case BindSources(m, w) => if m in s.media { BoundSourcesKeepNames(s, m, w, t); }
    case SetManual(m, tmdbId) => if m in s.media { ManualKeepsNames(s, m, tmdbId, t.blank); }
    case DeleteOrphans => OrphansKeepNames(s, t.blank);
    case LinkEntry(e, m) => if m in s.media { SameKeepsNames(s, Linked(s, e, m), t.blank); }
  }

  /** Over every sequence of operations an item whose identity was confirmed or set by hand keeps its title and year, once
      it has them, for as long as it exists. */
  lemma {:induction false} RunKeepsNames(s: Store, ops: seq<Operation>, t: Text)
    requires Inv(s)
    ensures KeepsNames(s, Run(s, ops, t), t.blank)
    decreases |ops|
  {
    hide Inv, Applied, KeepsNames;
    if ops == [] {
      SameKeepsNames(s, s, t.blank);
    } else {
      AppliedKeepsInv(s, ops[0], t);
      AppliedKeepsNames(s, ops[0], t);
      RunKeepsNames(Applied(s, ops[0], t), ops[1..], t);
      NamesKeptTwice(s, Applied(s, ops[0], t), Run(s, ops, t), t.blank);
    }
  }

  // ---------- By hand, and bindings ----------

  /** Setting an identity by hand leaves title and year; the poster goes if the item had another id before. */
  lemma ManualKeepsTitle(s: Store, m: Id, tmdbId: string)
    requires Inv(s) && m in s.media
    ensures var (s', m') := ManuallyIdentified(s, m, tmdbId);
            && m' in s.media && m' in s'.media
            && s'.media[m'].title == s.media[m'].title && s'.media[m'].year == s.media[m'].year
            && s'.media[m'].kind == s.media[m'].kind && s'.media[m'].category == s.media[m'].category
            && (s'.media[m'].poster == s.media[m'].poster || s'.media[m'].poster.None?)
            && (m' == m ==>
                  && ((forall r :: IdentityBelongs(s, r, m) ==> s.identities[r].externalId == tmdbId) ==>
                        s'.media[m].poster == s.media[m].poster)
                  && ((exists r :: IdentityBelongs(s, r, m) && s.identities[r].externalId != tmdbId) ==> s'.media[m].poster.None?))
            && (forall n :: n in s'.media && n != m' ==> n in s.media && s'.media[n] == s.media[n])
  {
    var owner := IdentityRow(s, ProviderKindFor(s.media[m].kind), tmdbId);
    if owner.Some? {
      IdentityHasMedia(s, owner.value);
    }
    if r :| IdentityBelongs(s, r, m) && s.identities[r].externalId != tmdbId {
      OneIdentityPerItem(s, r, m);
    }
    hide IdentitiesOk, BindingsOk, EntriesOk, AliasesOk, IdsOk;
  }

  /** A key that is not bound is bound as written; a bound one takes what is written, item and evidence, unless its binding is
      authoritative.  Then the item stays, and a write for it that is authoritative, too, replaces the evidence. */
  lemma BindingIsWritten(s: Store, m: Id, key: SourceKey, e: Evidence) returns (r: Id)
    requires Inv(s) && BoundKey(s, m, key, e).Ok?
    ensures var s' := BoundKey(s, m, key, e).value;
            && r in s'.bindings && s'.bindings[r].key == key && s'.bindings == s.bindings[r := s'.bindings[r]]
            && ((forall q :: !BindingMatches(s, q, key)) ==> r !in s.bindings && s'.bindings[r] == Binding(m, key, e))
            && (forall q :: BindingMatches(s, q, key) ==>
                  && q == r
                  && (!s.bindings[r].evidence.authoritative ==> s'.bindings[r] == Binding(m, key, e))
                  && (s.bindings[r].evidence.authoritative ==>
                        && s'.bindings[r].media == s.bindings[r].media
                        && s'.bindings[r].evidence ==
                           (if s.bindings[r].media == m && e.authoritative then e else s.bindings[r].evidence)))
            && s'.media == s.media && s'.identities == s.identities && s'.entries == s.entries && s'.aliases == s.aliases
  {
    hide IdentitiesOk, EntriesOk, AliasesOk;
    var row := BindingRow(s, key);
    r := if row.Some? then row.value else s.nextId;
    if row.Some? {
      assert s.bindings[r := s.bindings[r]] == s.bindings;
      OtherKeys(s, r);
    }
  }
}
