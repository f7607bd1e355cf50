/** Merging what was selected with what is stored, before a sync: source maps and the alias map. */
module IdentityInputs {
  import opened Common
  import opened MediaIdentity
  import opened LibraryPaths

  datatype Known = Known(
    tmdbId: Option<string>, title: string, year: Option<int>, mediaType: ProviderKind, poster: Option<string>,
    authority: Authority, confidence: Option<int>, resolverVersion: string, category: Option<Category>)

  // ---------- Source bindings ----------

  datatype Record = Record(sourceKind: string, itemId: Option<string>, infoHash: Option<string>, identity: Known)

  /** The two maps that are merged into, by torrent id and by folded info hash. */
  datatype Maps = Maps(byTorrentId: map<string, Known>, byInfoHash: map<string, Known>)

  datatype Slot = Torrent(id: string) | Hash(hash: string)

  function At(m: Maps, slot: Slot): Option<Known> {
    match slot
    case Torrent(id) => Lookup(m.byTorrentId, id)
    case Hash(h) => Lookup(m.byInfoHash, h)
  }

  /** The slots that a record names: a torrent id, an info hash, or both. */
  function Slots(r: Record, casefold: string -> string): seq<Slot> {
    (if r.sourceKind == "torrents" && r.itemId.Some? then [Torrent(r.itemId.value)] else [])
    + (if r.infoHash.Some? then [Hash(casefold(r.infoHash.value))] else [])
  }

  function Priority(k: Known): nat {
    k.authority.Priority()
  }

  /** Python's `max`: the first of the strongest. */
  function Strongest(first: Known, others: seq<Known>): Known
    decreases |others|
  {
    if others == [] then first
    else Strongest(if Priority(others[0]) > Priority(first) then others[0] else first, others[1..])
  }

  function SelectedAt(m: Maps, slots: seq<Slot>): seq<Known> {
    if slots == [] then []
    else (if At(m, slots[0]).Some? then [At(m, slots[0]).value] else []) + SelectedAt(m, slots[1..])
  }

  /** The slot takes the identity unless it holds a stronger one. */
  function Put(m: Maps, slot: Slot, k: Known): Maps {
    var current := At(m, slot);
    if current.Some? && Priority(k) < Priority(current.value) then m
    else match slot
      case Torrent(id) => m.(byTorrentId := m.byTorrentId[id := k])
      case Hash(h) => m.(byInfoHash := m.byInfoHash[h := k])
  }

  function PutAll(m: Maps, slots: seq<Slot>, k: Known): Maps
    decreases |slots|
  {
    if slots == [] then m else PutAll(Put(m, slots[0], k), slots[1..], k)
  }

  function MergeRecord(m: Maps, r: Record, casefold: string -> string): Maps {
    var slots := Slots(r, casefold);
    PutAll(m, slots, Strongest(r.identity, SelectedAt(m, slots)))
  }

  function Merge(m: Maps, records: seq<Record>, casefold: string -> string): Maps {
    if records == [] then m else MergeRecord(Merge(m, Front(records), casefold), Last(records), casefold)
  }

  method MergeSourceBindings(m: Maps, persisted: seq<Record>, casefold: string -> string) returns (merged: Maps)
    ensures merged == Merge(m, persisted, casefold)
  {
    hide MergeRecord;
    merged := m;
    for i := 0 to |persisted|
      invariant merged == Merge(m, persisted[..i], casefold)
    {
      merged := MergeOne(merged, persisted[i], casefold);
      assert Front(persisted[..i + 1]) == persisted[..i];
    }
    assert persisted[..|persisted|] == persisted;
  }

  /** The body of the loop: compare the stored identity with those selected, then offer the strongest. */
  method MergeOne(m: Maps, record: Record, casefold: string -> string) returns (merged: Maps)
    ensures merged == MergeRecord(m, record, casefold)
  {
    var byTorrentId, byInfoHash := m.byTorrentId, m.byInfoHash;
    SelectedPair(m, record, casefold);
    hide Strongest, SelectedAt, PutAll, Priority;
    var identity := record.identity;
    var named := record.sourceKind == "torrents" && record.itemId.Some?;
    if named {
      identity := Better(identity, Lookup(byTorrentId, record.itemId.value));
    }
    if record.infoHash.Some? {
      identity := Better(identity, Lookup(byInfoHash, casefold(record.infoHash.value)));
    }
    if named {
      byTorrentId := MergeSourceIdentity(byTorrentId, record.itemId.value, identity);
    }
    if record.infoHash.Some? {
      byInfoHash := MergeSourceIdentity(byInfoHash, casefold(record.infoHash.value), identity);
    }
    return Maps(byTorrentId, byInfoHash);
  }

  method MergeSourceIdentity(identities: map<string, Known>, key: string, k: Known) returns (merged: map<string, Known>)
    ensures merged == if key in identities && Priority(k) < Priority(identities[key]) then identities
                      else identities[key := k]
  {
    if key !in identities || Priority(k) >= Priority(identities[key]) {
      return identities[key := k];
    }
    return identities;
  }

  /** A record names at most two slots, so its candidates can be compared one after the other. */
  lemma SelectedPair(m: Maps, r: Record, casefold: string -> string)
    ensures var slots, k := Slots(r, casefold), Strongest(r.identity, SelectedAt(m, Slots(r, casefold)));
            && (|slots| == 0 ==> k == r.identity && PutAll(m, slots, k) == m)
            && (|slots| == 1 ==> k == Better(r.identity, At(m, slots[0])) && PutAll(m, slots, k) == Put(m, slots[0], k))
            && (|slots| == 2 ==> k == Better(Better(r.identity, At(m, slots[0])), At(m, slots[1]))
                                 && PutAll(m, slots, k) == Put(Put(m, slots[0], k), slots[1], k))
  {
    var slots := Slots(r, casefold);
    var k := Strongest(r.identity, SelectedAt(m, slots));
    if |slots| == 1 {
      OneSlot(m, slots[0], r.identity);
      assert slots == [slots[0]];
    } else if |slots| == 2 {
      TwoSlots(m, slots[0], slots[1], r.identity);
      assert slots == [slots[0], slots[1]];
    }
  }

  lemma OneSlot(m: Maps, a: Slot, first: Known)
    ensures Strongest(first, SelectedAt(m, [a])) == Better(first, At(m, a))
    ensures forall k :: PutAll(m, [a], k) == Put(m, a, k)
  {
    assert [a][1..] == [];
    assert SelectedAt(m, [a]) == (if At(m, a).Some? then [At(m, a).value] else []) + SelectedAt(m, []);
  }

  lemma TwoSlots(m: Maps, a: Slot, b: Slot, first: Known)
    ensures Strongest(first, SelectedAt(m, [a, b])) == Better(Better(first, At(m, a)), At(m, b))
    ensures forall k :: PutAll(m, [a, b], k) == Put(Put(m, a, k), b, k)
  {
    assert [a, b][1..] == [b];
    forall k ensures PutAll(m, [a, b], k) == Put(Put(m, a, k), b, k) {
      OneSlot(Put(m, a, k), b, first);
    }
    OneSlot(m, b, Better(first, At(m, a)));
    var rest := SelectedAt(m, [b]);
    assert SelectedAt(m, [a, b]) == (if At(m, a).Some? then [At(m, a).value] else []) + rest;
    if At(m, a).Some? {
      assert ([At(m, a).value] + rest)[1..] == rest;
    } else {
      assert SelectedAt(m, [a, b]) == rest;
    }
  }

  function Better(k: Known, other: Option<Known>): Known {
    if other.Some? && Priority(other.value) > Priority(k) then other.value else k
  }

  // ---------- What merging guarantees ----------

  /** No slot is emptied or weakened. */
  ghost predicate NoWeaker(m: Maps, m': Maps) {
    forall slot {:trigger At(m', slot)} ::
      At(m, slot).Some? ==> At(m', slot).Some? && Priority(At(m', slot).value) >= Priority(At(m, slot).value)
  }

  lemma PutStrengthens(m: Maps, slot: Slot, k: Known)
    ensures NoWeaker(m, Put(m, slot, k))
    ensures At(Put(m, slot, k), slot).Some? && Priority(At(Put(m, slot, k), slot).value) >= Priority(k)
    ensures forall other :: other != slot ==> At(Put(m, slot, k), other) == At(m, other)
  {
  }

  lemma {:induction false} PutAllStrengthens(m: Maps, slots: seq<Slot>, k: Known)
    ensures NoWeaker(m, PutAll(m, slots, k))
    ensures forall slot :: slot in slots ==>
              At(PutAll(m, slots, k), slot).Some? && Priority(At(PutAll(m, slots, k), slot).value) >= Priority(k)
    ensures forall slot :: slot !in slots ==> At(PutAll(m, slots, k), slot) == At(m, slot)
    decreases |slots|
  {
    if slots != [] {
      hide Put, At;
      PutStrengthens(m, slots[0], k);
      PutAllStrengthens(Put(m, slots[0], k), slots[1..], k);
    }
  }

  lemma {:induction false} StrongestIsMaximal(first: Known, others: seq<Known>)
    ensures Strongest(first, others) == first || Strongest(first, others) in others
    ensures forall k :: k in others ==> Priority(k) <= Priority(Strongest(first, others))
    ensures Priority(first) <= Priority(Strongest(first, others))
    ensures Priority(first) == Priority(Strongest(first, others)) ==> Strongest(first, others) == first
    decreases |others|
  {
    if others != [] {
      StrongestIsMaximal(if Priority(others[0]) > Priority(first) then others[0] else first, others[1..]);
    }
  }

  lemma {:induction false} SelectedAtMeaning(m: Maps, slots: seq<Slot>)
    ensures forall slot :: slot in slots && At(m, slot).Some? ==> At(m, slot).value in SelectedAt(m, slots)
    ensures forall k :: k in SelectedAt(m, slots) ==> exists slot :: slot in slots && At(m, slot) == Some(k)
  {
    if slots != [] {
      SelectedAtMeaning(m, slots[1..]);
    }
  }

  /** When the identity to be put is at least as strong as what the slots hold, it replaces all of them. */
  lemma {:induction false} PutAllReplaces(m: Maps, slots: seq<Slot>, k: Known)
    requires forall slot :: slot in slots && At(m, slot).Some? ==> Priority(At(m, slot).value) <= Priority(k)
    ensures forall slot :: slot in slots ==> At(PutAll(m, slots, k), slot) == Some(k)
    decreases |slots|
  {
    if slots != [] {
      var m' := Put(m, slots[0], k);
      forall slot | slot in slots && At(m', slot).Some? ensures Priority(At(m', slot).value) <= Priority(k) {
        if slot != slots[0] {
          assert At(m', slot) == At(m, slot);
        }
      }
      PutAllReplaces(m', slots[1..], k);
      PutAllStrengthens(m', slots[1..], k);
    }
  }

  /** One record: its slots all end up with one identity, the strongest of the stored one and those
      selected, with ties to the stored one; every other slot stays. */
  lemma MergeRecordMeaning(m: Maps, r: Record, casefold: string -> string)
    ensures var m', slots := MergeRecord(m, r, casefold), Slots(r, casefold);
            && NoWeaker(m, m')
            && (forall slot :: slot !in slots ==> At(m', slot) == At(m, slot))
            && (forall slot :: slot in slots ==>
                  && At(m', slot).Some? && Priority(At(m', slot).value) >= Priority(r.identity)
                  && (Priority(At(m', slot).value) == Priority(r.identity) ==> At(m', slot).value == r.identity)
                  && (At(m', slot).value == r.identity || exists other :: other in slots && At(m, other) == At(m', slot)))
  {
    var slots := Slots(r, casefold);
    var selected := SelectedAt(m, slots);
    var k := Strongest(r.identity, selected);
    StrongestIsMaximal(r.identity, selected);
    SelectedAtMeaning(m, slots);
    PutAllStrengthens(m, slots, k);
    PutAllReplaces(m, slots, k);
  }

  ghost predicate Names(r: Record, slot: Slot, casefold: string -> string) {
    slot in Slots(r, casefold)
  }

  /** Every slot ends at or above its initial identity and every stored record that names it. */
  lemma {:induction false} MergedIsStrongest(m: Maps, records: seq<Record>, casefold: string -> string, slot: Slot)
    ensures NoWeaker(m, Merge(m, records, casefold))
    ensures forall i :: 0 <= i < |records| && Names(records[i], slot, casefold) ==>
              && At(Merge(m, records, casefold), slot).Some?
              && Priority(At(Merge(m, records, casefold), slot).value) >= Priority(records[i].identity)
  {
    if records != [] {
      var before := Merge(m, Front(records), casefold);
      MergedIsStrongest(m, Front(records), casefold, slot);
      MergeRecordMeaning(before, Last(records), casefold);
      var after := Merge(m, records, casefold);
      assert At(after, slot) == At(after, slot);
      forall i | 0 <= i < |records| && Names(records[i], slot, casefold)
        ensures At(after, slot).Some? && Priority(At(after, slot).value) >= Priority(records[i].identity)
      {
        if i < |records| - 1 {
          assert records[i] == Front(records)[i];
        }
      }
    }
  }

  /** The last stored record that names a slot holds it unless something strictly stronger does. */
  lemma {:induction false} TiesGoToTheStored(
    m: Maps, records: seq<Record>, casefold: string -> string, slot: Slot, i: nat)
    requires i < |records| && Names(records[i], slot, casefold)
    requires forall j :: i < j < |records| ==> !Names(records[j], slot, casefold)
    ensures var final := At(Merge(m, records, casefold), slot);
            final.Some? && (final.value == records[i].identity || Priority(final.value) > Priority(records[i].identity))
  {
    var before := Merge(m, Front(records), casefold);
    MergeRecordMeaning(before, Last(records), casefold);
    if i < |records| - 1 {
      assert !Names(Last(records), slot, casefold);
      forall j | i < j < |Front(records)| ensures !Names(Front(records)[j], slot, casefold) {
        assert Front(records)[j] == records[j];
      }
      assert Front(records)[i] == records[i];
      TiesGoToTheStored(m, Front(records), casefold, slot, i);
    }
  }

  /** Merging invents nothing: what a slot ends with was selected for some slot or is stored. */
  lemma {:induction false} MergedIsKnown(m: Maps, records: seq<Record>, casefold: string -> string, slot: Slot)
    ensures var final := At(Merge(m, records, casefold), slot);
            final.Some? ==>
              (exists s :: At(m, s) == final) || (exists i :: 0 <= i < |records| && records[i].identity == final.value)
  {
    if records != [] {
      var before, after := Merge(m, Front(records), casefold), Merge(m, records, casefold);
      MergeRecordMeaning(before, Last(records), casefold);
      var final := At(after, slot);
      if final.Some? && final.value != Last(records).identity {
        var source :| At(before, source) == final;
        MergedIsKnown(m, Front(records), casefold, source);
        if i :| 0 <= i < |Front(records)| && Front(records)[i].identity == final.value {
          assert records[i].identity == final.value;
        }
      } else if final.Some? {
        assert records[|records| - 1].identity == final.value;
      }
    }
  }

  // ---------- Aliases ----------

  datatype AliasBinding = AliasBinding(owner: Id, kind: ContentKind, alias: string, identity: Known)

  type AliasKey = (ContentKind, string)

  function KeyOf(b: AliasBinding): AliasKey {
    (b.kind, b.alias)
  }

  /** Nothing bound to the same alias has more authority. */
  ghost predicate Wins(bindings: set<AliasBinding>, b: AliasBinding) {
    b in bindings && forall c :: c in bindings && KeyOf(c) == KeyOf(b) ==> Priority(c.identity) <= Priority(b.identity)
  }

  /** All that win the alias belong to one item. */
  ghost predicate Decided(bindings: set<AliasBinding>, b: AliasBinding) {
    Wins(bindings, b) && forall c :: Wins(bindings, c) && KeyOf(c) == KeyOf(b) ==> c.owner == b.owner
  }

  /** The alias map of a set of bindings: the aliases that are decided, each with its winner's identity. */
  ghost predicate IsAliasMap(bindings: set<AliasBinding>, m: map<AliasKey, Known>) {
    && (forall b :: Decided(bindings, b) ==> KeyOf(b) in m && m[KeyOf(b)] == b.identity)
    && (forall key :: key in m ==> exists b :: Decided(bindings, b) && KeyOf(b) == key)
  }

  /** An identity is read from its item, so bindings of one item carry one identity. */
  ghost predicate OneIdentityPerOwner(bindings: set<AliasBinding>) {
    forall b, c :: b in bindings && c in bindings && b.owner == c.owner ==> b.identity == c.identity
  }

  lemma AliasMapIsUnique(bindings: set<AliasBinding>, m: map<AliasKey, Known>, n: map<AliasKey, Known>)
    requires IsAliasMap(bindings, m) && IsAliasMap(bindings, n)
    ensures m == n
  {
    forall key | key in m ensures key in n && m[key] == n[key] {
      var b :| Decided(bindings, b) && KeyOf(b) == key;
    }
    forall key | key in n ensures key in m {
      var b :| Decided(bindings, b) && KeyOf(b) == key;
    }
  }

  function ForKey(bindings: seq<AliasBinding>, key: AliasKey): seq<AliasBinding> {
    Filter((b: AliasBinding) => KeyOf(b) == key, bindings)
  }

  function HighestPriority(bindings: seq<AliasBinding>): (p: nat)
    ensures forall b :: b in bindings ==> Priority(b.identity) <= p
    ensures bindings != [] ==> exists b :: b in bindings && Priority(b.identity) == p
  {
    if bindings == [] then 0
    else
      var rest := HighestPriority(bindings[1..]);
      if bindings[1..] == [] || Priority(bindings[0].identity) > rest then Priority(bindings[0].identity) else rest
  }

  function Winners(candidates: seq<AliasBinding>): seq<AliasBinding> {
    var highest := HighestPriority(candidates);
    Filter((b: AliasBinding) => Priority(b.identity) == highest, candidates)
  }

  lemma WinnersMeaning(bindings: seq<AliasBinding>, key: AliasKey, b: AliasBinding)
    ensures b in Winners(ForKey(bindings, key)) <==> Wins(Elements(bindings), b) && KeyOf(b) == key
  {
    var candidates := ForKey(bindings, key);
    if b in Winners(candidates) {
      forall c | c in Elements(bindings) && KeyOf(c) == key ensures Priority(c.identity) <= Priority(b.identity) {
        assert c in candidates;
      }
    }
    if Wins(Elements(bindings), b) && KeyOf(b) == key {
      assert b in candidates;
      var top :| top in candidates && Priority(top.identity) == HighestPriority(candidates);
      assert top in Elements(bindings);
    }
  }

  function Owners(bindings: seq<AliasBinding>): set<Id> {
    set b | b in bindings :: b.owner
  }

  lemma WinnersNonempty(candidates: seq<AliasBinding>)
    requires candidates != []
    ensures Winners(candidates) != []
  {
    var highest := HighestPriority(candidates);
    var top :| top in candidates && Priority(top.identity) == highest;
    assert top in Winners(candidates);
  }

  lemma WinnersExist(bindings: seq<AliasBinding>, key: AliasKey)
    requires ForKey(bindings, key) != []
    ensures Winners(ForKey(bindings, key)) != []
    ensures forall b :: b in Winners(ForKey(bindings, key)) <==> Wins(Elements(bindings), b) && KeyOf(b) == key
  {
    var candidates := ForKey(bindings, key);
    WinnersNonempty(candidates);
    hide Wins, Winners, ForKey;
    forall b ensures b in Winners(candidates) <==> Wins(Elements(bindings), b) && KeyOf(b) == key {
      WinnersMeaning(bindings, key, b);
    }
  }

  lemma AliasDecided(bindings: seq<AliasBinding>, key: AliasKey)
    requires OneIdentityPerOwner(Elements(bindings)) && ForKey(bindings, key) != []
    ensures var winners := Winners(ForKey(bindings, key));
            && winners != []
            && (|Owners(winners)| == 1 ==> Decided(Elements(bindings), winners[0]) && KeyOf(winners[0]) == key)
            && (forall b :: Decided(Elements(bindings), b) && KeyOf(b) == key ==>
                  |Owners(winners)| == 1 && winners[0].identity == b.identity)
  {
    hide Winners, ForKey, Wins;
    var all, winners := Elements(bindings), Winners(ForKey(bindings, key));
    WinnersExist(bindings, key);
    assert winners[0] in winners;
    if |Owners(winners)| == 1 {
      forall c | Wins(all, c) && KeyOf(c) == key ensures c.owner == winners[0].owner {
        assert c in winners;
        OnlyElement(Owners(winners), c.owner, winners[0].owner);
      }
    }
    forall b | Decided(all, b) && KeyOf(b) == key
      ensures |Owners(winners)| == 1 && winners[0].identity == b.identity
    {
      assert b in winners && winners[0].owner == b.owner;
      assert Owners(winners) == {b.owner};
      WinnerIsBound(all, b);
      WinnerIsBound(all, winners[0]);
    }
  }

  lemma WinnerIsBound(bindings: set<AliasBinding>, b: AliasBinding)
    requires Wins(bindings, b)
    ensures b in bindings
  {
  }

  /** The result depends on the set of bindings alone, whatever order they come in. */
  method AliasIdentities(bindings: seq<AliasBinding>) returns (identities: map<AliasKey, Known>)
    requires OneIdentityPerOwner(Elements(bindings))
    ensures IsAliasMap(Elements(bindings), identities)
  {
    hide Decided, Winners, ForKey, OneIdentityPerOwner;
    var keys := set b | b in bindings :: KeyOf(b);
    identities := map[];
    var todo := keys;
    DecidedKeys(bindings, keys);
    while todo != {}
      invariant todo <= keys
      invariant AliasMapExcept(Elements(bindings), identities, todo)
      decreases |todo|
    {
      var key :| key in todo;
      KeyHasCandidates(bindings, key);
      AliasDecided(bindings, key);
      var winners := Winners(ForKey(bindings, key));
      if |Owners(winners)| == 1 {
        identities := identities[key := winners[0].identity];
      }
      todo := todo - {key};
    }
  }

  lemma DecidedKeys(bindings: seq<AliasBinding>, keys: set<AliasKey>)
    requires keys == set b | b in bindings :: KeyOf(b)
    ensures AliasMapExcept(Elements(bindings), map[], keys)
  {
  }

  lemma KeyHasCandidates(bindings: seq<AliasBinding>, key: AliasKey)
    requires exists b :: b in bindings && KeyOf(b) == key
    ensures ForKey(bindings, key) != []
  {
    var b :| b in bindings && KeyOf(b) == key;
    assert b in ForKey(bindings, key);
  }

  /** The alias map as far as the keys outside `todo` are concerned. */
  ghost predicate AliasMapExcept(bindings: set<AliasBinding>, m: map<AliasKey, Known>, todo: set<AliasKey>) {
    && (forall b :: Decided(bindings, b) && KeyOf(b) !in todo ==> KeyOf(b) in m && m[KeyOf(b)] == b.identity)
    && (forall key :: key in m ==> key !in todo && exists b :: Decided(bindings, b) && KeyOf(b) == key)
  }

  /** Two orders of the same bindings give the same map. */
  lemma AliasOrderIrrelevant(
    bindings: seq<AliasBinding>, reordered: seq<AliasBinding>, m: map<AliasKey, Known>, n: map<AliasKey, Known>)
    requires multiset(bindings) == multiset(reordered)
    requires IsAliasMap(Elements(bindings), m) && IsAliasMap(Elements(reordered), n)
    ensures m == n
  {
    forall b ensures b in bindings <==> b in reordered {
      assert b in multiset(bindings) <==> b in multiset(reordered);
    }
    assert Elements(bindings) == Elements(reordered);
    AliasMapIsUnique(Elements(bindings), m, n);
  }
}
