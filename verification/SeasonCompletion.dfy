/** Grouping the streams found for missing episodes, and accounting for what was acquired. */
module SeasonCompletion {
  import opened Common
  import opened SeasonRanking

  /** What the grouping reads of a provider stream.  The parsed fields are inputs here. */
  datatype Stream = Stream(
    infoHash: Option<string>, actionUrl: Option<string>, markedCached: bool, actionKey: string,
    title: string, releaseFamily: Option<string>, matchLabels: seq<string>)

  function SourceId(s: Stream): Option<string> {
    if s.infoHash.Some? then Some("hash:" + s.infoHash.value)
    else if s.actionUrl.None? || !s.markedCached then None
    else Some("action:" + s.actionKey)
  }

  predicate IsCached(s: Stream, cachedByHash: map<string, bool>) {
    if s.infoHash.Some? then s.infoHash.value in cachedByHash && cachedByHash[s.infoHash.value]
    else s.actionUrl.Some?
  }

  // ---------- Specification: every stream listed for every episode, in order ----------

  type Sighting = (EpisodeRef, Stream)

  function Sightings(streamsByEpisode: seq<(EpisodeRef, seq<Stream>)>): seq<Sighting> {
    if streamsByEpisode == [] then []
    else Sightings(Front(streamsByEpisode)) + Listed(Last(streamsByEpisode).0, Last(streamsByEpisode).1)
  }

  function Listed(episode: EpisodeRef, streams: seq<Stream>): seq<Sighting> {
    seq(|streams|, i requires 0 <= i < |streams| => (episode, streams[i]))
  }

  /** The sources in the order in which they were first sighted. */
  function Sources(seen: seq<Sighting>): seq<string> {
    if seen == [] then []
    else
      var order, id := Sources(Front(seen)), SourceId(Last(seen).1);
      if id.None? || id.value in order then order else order + [id.value]
  }

  function EpisodesOf(seen: seq<Sighting>, id: string): set<EpisodeRef> {
    if seen == [] then {}
    else EpisodesOf(Front(seen), id) + if SourceId(Last(seen).1) == Some(id) then {Last(seen).0} else {}
  }

  /** The first stream sighted for a source represents it. */
  function Representative(seen: seq<Sighting>, id: string): Option<Stream> {
    if seen == [] then None
    else
      var earlier := Representative(Front(seen), id);
      if earlier.None? && SourceId(Last(seen).1) == Some(id) then Some(Last(seen).1) else earlier
  }

  function CandidateOf(seen: seq<Sighting>, id: string, cachedByHash: map<string, bool>): Candidate {
    var r := Representative(seen, id);
    var s := if r.Some? then r.value else Stream(None, None, false, "", "", None, []);
    Candidate(id, s.infoHash, s.title, s.releaseFamily, EpisodesOf(seen, id), IsCached(s, cachedByHash),
              s.actionUrl, s.matchLabels)
  }

  lemma {:induction false} EpisodesOfMeaning(seen: seq<Sighting>, id: string, e: EpisodeRef)
    ensures e in EpisodesOf(seen, id) <==> exists i :: 0 <= i < |seen| && seen[i].0 == e && SourceId(seen[i].1) == Some(id)
  {
    if seen != [] {
      EpisodesOfMeaning(Front(seen), id, e);
      if e in EpisodesOf(Front(seen), id) {
        var i :| 0 <= i < |seen| - 1 && Front(seen)[i].0 == e && SourceId(Front(seen)[i].1) == Some(id);
        assert seen[i] == Front(seen)[i];
      }
      if i :| 0 <= i < |seen| && seen[i].0 == e && SourceId(seen[i].1) == Some(id) {
        assert i < |seen| - 1 ==> Front(seen)[i] == seen[i];
      }
    }
  }

  lemma {:induction false} SourcesMeaning(seen: seq<Sighting>)
    ensures Distinct(Sources(seen))
    ensures forall id :: id in Sources(seen) <==> exists i :: 0 <= i < |seen| && SourceId(seen[i].1) == Some(id)
    ensures forall id :: id in Sources(seen) <==> Representative(seen, id).Some?
  {
    if seen != [] {
      var n := |seen| - 1;
      SourcesMeaning(Front(seen));
      forall id ensures (exists i :: 0 <= i < |seen| && SourceId(seen[i].1) == Some(id)) <==>
                        (exists i :: 0 <= i < n && SourceId(Front(seen)[i].1) == Some(id)) || SourceId(seen[n].1) == Some(id)
      {
        if i :| 0 <= i < |seen| && SourceId(seen[i].1) == Some(id) {
          assert i < n ==> Front(seen)[i] == seen[i];
        }
        if i :| 0 <= i < n && SourceId(Front(seen)[i].1) == Some(id) {
          assert Front(seen)[i] == seen[i];
        }
      }
    }
  }

  /** Grouped candidates have distinct source ids, one for every source that some stream has, and
      list exactly the episodes for which a stream of the source was found. */
  lemma GroupingIsExact(seen: seq<Sighting>, cachedByHash: map<string, bool>, candidates: seq<Candidate>)
    requires |candidates| == |Sources(seen)|
    requires forall i :: 0 <= i < |candidates| ==> candidates[i] == CandidateOf(seen, Sources(seen)[i], cachedByHash)
    ensures forall i, j :: 0 <= i < j < |candidates| ==> candidates[i].sourceId != candidates[j].sourceId
    ensures OneCandidatePerSource(candidates)
    ensures forall c, e :: c in candidates ==>
              (e in c.episodes <==> exists i :: 0 <= i < |seen| && seen[i].0 == e && SourceId(seen[i].1) == Some(c.sourceId))
    ensures forall i :: 0 <= i < |seen| && SourceId(seen[i].1).Some? ==>
              exists c :: c in candidates && Some(c.sourceId) == SourceId(seen[i].1) && seen[i].0 in c.episodes
  {
    SourcesMeaning(seen);
    forall c, e | c in candidates
      ensures e in c.episodes <==> exists i :: 0 <= i < |seen| && seen[i].0 == e && SourceId(seen[i].1) == Some(c.sourceId)
    {
      EpisodesOfMeaning(seen, c.sourceId, e);
    }
    forall i | 0 <= i < |seen| && SourceId(seen[i].1).Some?
      ensures exists c :: c in candidates && Some(c.sourceId) == SourceId(seen[i].1) && seen[i].0 in c.episodes
    {
      var id := SourceId(seen[i].1).value;
      assert id in Sources(seen);
      var j :| 0 <= j < |Sources(seen)| && Sources(seen)[j] == id;
      assert candidates[j].sourceId == id;
    }
  }

  /** Streams are of one source if they have one hash; without a hash, only cached ones that can be acted on are of any, and of
      one if they have one key. */
  lemma SourceMeaning(s: Stream, t: Stream)
    ensures SourceId(s).Some? <==> s.infoHash.Some? || (s.actionUrl.Some? && s.markedCached)
    ensures SourceId(s).Some? && SourceId(t).Some? ==>
              (SourceId(s) == SourceId(t) <==> s.infoHash == t.infoHash && (s.infoHash.None? ==> s.actionKey == t.actionKey))
  {
    if SourceId(s).Some? && SourceId(t).Some? {
      assert s.infoHash.Some? ==> SourceId(s).value[5..] == s.infoHash.value && SourceId(s).value[0] == 'h';
      assert t.infoHash.Some? ==> SourceId(t).value[5..] == t.infoHash.value && SourceId(t).value[0] == 'h';
      assert s.infoHash.None? ==> SourceId(s).value[7..] == s.actionKey && SourceId(s).value[0] == 'a';
      assert t.infoHash.None? ==> SourceId(t).value[7..] == t.actionKey && SourceId(t).value[0] == 'a';
    }
  }

  lemma {:induction false} FirstSighting(seen: seq<Sighting>, id: string) returns (i: nat)
    requires id in Sources(seen)
    ensures i < |seen| && SourceId(seen[i].1) == Some(id) && Representative(seen, id) == Some(seen[i].1)
    ensures forall j :: 0 <= j < i ==> SourceId(seen[j].1) != Some(id)
  {
    if id in Sources(Front(seen)) {
      i := FirstSighting(Front(seen), id);
      forall j | 0 <= j < i ensures SourceId(seen[j].1) != Some(id) {
        assert seen[j] == Front(seen)[j];
      }
    } else {
      i := |seen| - 1;
      SourcesMeaning(Front(seen));
      forall j | 0 <= j < i ensures SourceId(seen[j].1) != Some(id) {
        assert seen[j] == Front(seen)[j];
      }
    }
  }

  /** A candidate is described by the first stream of its source; it is cached if the table says so of its hash, and without a
      hash if it can be acted on. */
  lemma CandidateIsFirstSighted(seen: seq<Sighting>, id: string, cachedByHash: map<string, bool>) returns (i: nat)
    requires id in Sources(seen)
    ensures i < |seen| && SourceId(seen[i].1) == Some(id) && forall j :: 0 <= j < i ==> SourceId(seen[j].1) != Some(id)
    ensures var c, s := CandidateOf(seen, id, cachedByHash), seen[i].1;
            && c.sourceId == id && c.infoHash == s.infoHash && c.title == s.title && c.releaseFamily == s.releaseFamily
            && c.actionUrl == s.actionUrl && c.matchLabels == s.matchLabels
            && (s.infoHash.Some? ==> (c.cached <==> Lookup(cachedByHash, s.infoHash.value) == Some(true)))
            && (s.infoHash.None? ==> (c.cached <==> s.actionUrl.Some?))
  {
    i := FirstSighting(seen, id);
  }

  /** The tables after a prefix of the sightings. */
  ghost predicate TablesHold(
    seen: seq<Sighting>, order: seq<string>, grouped: map<string, set<EpisodeRef>>, representatives: map<string, Stream>)
  {
    && order == Sources(seen)
    && (forall id :: id in order <==> id in grouped)
    && (forall id :: id in order <==> id in representatives)
    && (forall id :: id in grouped ==> grouped[id] == EpisodesOf(seen, id))
    && (forall id :: id in representatives ==> Some(representatives[id]) == Representative(seen, id))
  }

  /** What one more sighting adds. */
  lemma SightingAppends(seen: seq<Sighting>, e: EpisodeRef, s: Stream, id: string)
    ensures var seen' := seen + [(e, s)];
            && EpisodesOf(seen', id) == EpisodesOf(seen, id) + (if SourceId(s) == Some(id) then {e} else {})
            && Representative(seen', id) ==
               (if Representative(seen, id).None? && SourceId(s) == Some(id) then Some(s) else Representative(seen, id))
  {
    assert Front(seen + [(e, s)]) == seen;
  }

  lemma SightingOrders(seen: seq<Sighting>, e: EpisodeRef, s: Stream)
    ensures Sources(seen + [(e, s)]) ==
            if SourceId(s).None? || SourceId(s).value in Sources(seen) then Sources(seen)
            else Sources(seen) + [SourceId(s).value]
  {
    assert Front(seen + [(e, s)]) == seen;
  }

  lemma UnsightedHasNoEpisodes(seen: seq<Sighting>, id: string)
    requires id !in Sources(seen)
    ensures EpisodesOf(seen, id) == {} && Representative(seen, id).None?
  {
    SourcesMeaning(seen);
    forall x | x in EpisodesOf(seen, id) ensures false {
      EpisodesOfMeaning(seen, id, x);
    }
  }

  lemma OtherSightingKeepsTables(
    seen: seq<Sighting>, order: seq<string>, grouped: map<string, set<EpisodeRef>>, representatives: map<string, Stream>,
    e: EpisodeRef, s: Stream)
    requires TablesHold(seen, order, grouped, representatives) && SourceId(s).None?
    ensures TablesHold(seen + [(e, s)], order, grouped, representatives)
  {
    hide Sources, EpisodesOf, Representative;
    SightingOrders(seen, e, s);
    forall id | id in order
      ensures grouped[id] == EpisodesOf(seen + [(e, s)], id)
      ensures Some(representatives[id]) == Representative(seen + [(e, s)], id)
    {
      SightingAppends(seen, e, s, id);
    }
  }

  lemma SightingKeepsTables(
    seen: seq<Sighting>, order: seq<string>, grouped: map<string, set<EpisodeRef>>, representatives: map<string, Stream>,
    e: EpisodeRef, s: Stream)
    requires TablesHold(seen, order, grouped, representatives) && SourceId(s).Some?
    ensures var id := SourceId(s).value;
            TablesHold(seen + [(e, s)], if id in order then order else order + [id],
                       grouped[id := (if id in grouped then grouped[id] else {}) + {e}],
                       if id in representatives then representatives else representatives[id := s])
  {
    hide Sources, EpisodesOf, Representative;
    var source := SourceId(s).value;
    var order' := if source in order then order else order + [source];
    var grouped' := grouped[source := (if source in grouped then grouped[source] else {}) + {e}];
    var representatives' := if source in representatives then representatives else representatives[source := s];
    SightingOrders(seen, e, s);
    forall id | id in order'
      ensures grouped'[id] == EpisodesOf(seen + [(e, s)], id)
      ensures Some(representatives'[id]) == Representative(seen + [(e, s)], id)
    {
      SightingAppends(seen, e, s, id);
      if id !in order {
        UnsightedHasNoEpisodes(seen, id);
      }
    }
  }

  method GroupStreamCandidates(streamsByEpisode: seq<(EpisodeRef, seq<Stream>)>, cachedByHash: map<string, bool>)
    returns (candidates: seq<Candidate>)
    ensures var seen := Sightings(streamsByEpisode);
            && |candidates| == |Sources(seen)|
            && forall i :: 0 <= i < |candidates| ==> candidates[i] == CandidateOf(seen, Sources(seen)[i], cachedByHash)
  {
    hide Sources, EpisodesOf, Representative, TablesHold, SourceId, CandidateOf;
    var order: seq<string> := [];
    var grouped: map<string, set<EpisodeRef>> := map[];
    var representatives: map<string, Stream> := map[];
    ghost var seen: seq<Sighting> := [];
    NoSightings();
    for i := 0 to |streamsByEpisode|
      invariant seen == Sightings(streamsByEpisode[..i])
      invariant TablesHold(seen, order, grouped, representatives)
    {
      var (episode, streams) := streamsByEpisode[i];
      ghost var before := seen;
      for j := 0 to |streams|
        invariant seen == before + Listed(episode, streams[..j])
        invariant TablesHold(seen, order, grouped, representatives)
      {
        var stream := streams[j];
        var id := SourceId(stream);
        assert Listed(episode, streams[..j + 1]) == Listed(episode, streams[..j]) + [(episode, stream)];
        if id.None? {
          OtherSightingKeepsTables(seen, order, grouped, representatives, episode, stream);
        } else {
          SightingKeepsTables(seen, order, grouped, representatives, episode, stream);
          order := if id.value in order then order else order + [id.value];
          grouped := grouped[id.value := (if id.value in grouped then grouped[id.value] else {}) + {episode}];
          representatives := if id.value in representatives then representatives else representatives[id.value := stream];
        }
        seen := seen + [(episode, stream)];
      }
      assert streams[..|streams|] == streams;
      assert Front(streamsByEpisode[..i + 1]) == streamsByEpisode[..i];
    }
    assert streamsByEpisode[..|streamsByEpisode|] == streamsByEpisode;
    candidates := BuildCandidates(seen, order, grouped, representatives, cachedByHash);
  }

  method BuildCandidates(
    ghost seen: seq<Sighting>, order: seq<string>, grouped: map<string, set<EpisodeRef>>,
    representatives: map<string, Stream>, cachedByHash: map<string, bool>)
    returns (candidates: seq<Candidate>)
    requires TablesHold(seen, order, grouped, representatives)
    ensures |candidates| == |Sources(seen)|
    ensures forall i :: 0 <= i < |candidates| ==> candidates[i] == CandidateOf(seen, Sources(seen)[i], cachedByHash)
  {
    hide Sources, EpisodesOf, Representative;
    candidates := [];
    for i := 0 to |order|
      invariant |candidates| == i
      invariant forall k :: 0 <= k < i ==> candidates[k] == CandidateOf(seen, order[k], cachedByHash)
    {
      var id := order[i];
      assert Some(representatives[id]) == Representative(seen, id);
      var s := representatives[id];
      candidates := candidates + [Candidate(id, s.infoHash, s.title, s.releaseFamily, grouped[id],
                                            IsCached(s, cachedByHash), s.actionUrl, s.matchLabels)];
    }
  }

  lemma NoSightings()
    ensures TablesHold([], [], map[], map[]) && Sightings([]) == []
  {
  }

  // ---------- Acquiring what is missing, season by season ----------

  /** What one show's run depends on: the sources discovered for each season, whether a candidate's
      labels match the show, and the rank. */
  datatype Search = Search(
    discover: int -> seq<Candidate>, matchesShow: Candidate -> bool, criteria: int -> Criteria, allowUncached: bool)
  {
    ghost predicate Valid() {
      forall season :: OneCandidatePerSource(discover(season))
    }

    function Matching(season: int): seq<Candidate> {
      Filter(matchesShow, discover(season))
    }

    /** Some title-matching eligible candidate of its season lists the episode. */
    ghost predicate Offered(e: EpisodeRef) {
      exists c :: c in discover(e.season) && matchesShow(c) && (c.cached || allowUncached) && e in c.episodes
    }
  }

  /** A source that lists the episode, and passes the filters, has been added now or before. */
  ghost predicate Acquired(s: Search, e: EpisodeRef, added: seq<string>, alreadyAdded: set<string>) {
    exists c :: c in s.discover(e.season) && s.matchesShow(c) && (c.cached || s.allowUncached) && e in c.episodes
                && (c.sourceId in added || c.sourceId in alreadyAdded)
  }

  lemma CoveredIsAcquired(
    s: Search, wanted: set<EpisodeRef>, season: int, selected: seq<Candidate>, e: EpisodeRef,
    added: seq<string>, alreadyAdded: set<string>)
    requires selected == Choose(s.criteria(season), s.Matching(season), wanted, s.allowUncached)
    requires e in wanted && e.season == season && e !in Uncovered(wanted, selected)
    requires forall c :: c in selected ==> c.sourceId in added || c.sourceId in alreadyAdded
    ensures Acquired(s, e, added, alreadyAdded)
  {
    UncoveredMeaning(wanted, selected, e);
    SelectionIsEligible(s.criteria(season), s.Matching(season), wanted, s.allowUncached);
    var c :| c in selected && e in c.episodes;
    assert c in s.Matching(season);
  }

  function SeasonMissing(missing: set<EpisodeRef>, season: int): set<EpisodeRef> {
    set e | e in missing && e.season == season
  }

  lemma SeasonCoverage(s: Search, missing: set<EpisodeRef>, season: int)
    requires s.Valid()
    ensures var wanted := SeasonMissing(missing, season);
            var selected := Choose(s.criteria(season), s.Matching(season), wanted, s.allowUncached);
            forall e :: e in wanted ==> (e in Uncovered(wanted, selected) <==> !s.Offered(e))
  {
    var wanted := SeasonMissing(missing, season);
    assert OneCandidatePerSource(s.Matching(season)) by {
      assert OneCandidatePerSource(s.discover(season));
    }
    forall e | e in wanted
      ensures e in Uncovered(wanted, Choose(s.criteria(season), s.Matching(season), wanted, s.allowUncached)) <==> !s.Offered(e)
    {
      SelectionCovers(s.criteria(season), s.Matching(season), wanted, s.allowUncached, e);
    }
  }

  /** An episode ends up covered exactly when it was offered.  Every source is added at most once,
      and none that an earlier show added. */
  method AcquireMissing(s: Search, missing: set<EpisodeRef>, alreadyAdded: set<string>)
    returns (added: seq<string>, covered: set<EpisodeRef>)
    requires s.Valid()
    ensures covered == set e | e in missing && s.Offered(e)
    ensures forall e :: e in covered ==> Acquired(s, e, added, alreadyAdded)
    ensures Distinct(added) && forall id :: id in added ==> id !in alreadyAdded
  {
    hide Choose, Uncovered, Acquired;
    var todo := missing;
    added, covered := [], {};
    while todo != {}
      invariant todo <= missing
      invariant forall e, f :: e in missing && f in todo && e.season == f.season ==> e in todo
      invariant covered == set e | e in missing && e !in todo && s.Offered(e)
      invariant forall e :: e in covered ==> Acquired(s, e, added, alreadyAdded)
      invariant Distinct(added) && forall id :: id in added ==> id !in alreadyAdded
      decreases |todo|
    {
      var season := LeastSeason(todo);
      var wanted := SeasonMissing(missing, season);
      var selected := ChooseCandidates(s.criteria(season), s.Matching(season), wanted, s.allowUncached);
      SeasonCoverage(s, missing, season);
      ghost var someEpisode :| someEpisode in todo && someEpisode.season == season;
      assert someEpisode in wanted;
      var here;
      ghost var before := added;
      added, here := AddSelected(selected, wanted, alreadyAdded, added);
      forall e | e in here ensures Acquired(s, e, added, alreadyAdded) {
        CoveredIsAcquired(s, wanted, season, selected, e, added, alreadyAdded);
      }
      forall e | e in covered ensures Acquired(s, e, added, alreadyAdded) {
        AcquiredStays(s, e, before, added, alreadyAdded);
      }
      covered := covered + here;
      todo := todo - wanted;
    }
  }

  lemma AcquiredStays(s: Search, e: EpisodeRef, before: seq<string>, added: seq<string>, alreadyAdded: set<string>)
    requires Acquired(s, e, before, alreadyAdded) && before <= added
    ensures Acquired(s, e, added, alreadyAdded)
  {
    forall id | id in before ensures id in added {
      var i :| 0 <= i < |before| && before[i] == id;
      assert added[i] == id;
    }
  }

  method AddSelected(selected: seq<Candidate>, wanted: set<EpisodeRef>, alreadyAdded: set<string>, before: seq<string>)
    returns (added: seq<string>, covered: set<EpisodeRef>)
    requires Distinct(before) && forall id :: id in before ==> id !in alreadyAdded
    ensures covered == wanted - Uncovered(wanted, selected)
    ensures Distinct(added) && before <= added && forall id :: id in added ==> id !in alreadyAdded
    ensures forall id :: id in added || id in alreadyAdded <==>
              id in before || id in alreadyAdded || exists c :: c in selected && c.sourceId == id
  {
    added, covered := before, {};
    for i := 0 to |selected|
      invariant covered == wanted - Uncovered(wanted, selected[..i])
      invariant Distinct(added) && before <= added && forall id :: id in added ==> id !in alreadyAdded
      invariant forall id :: id in added || id in alreadyAdded <==>
                  id in before || id in alreadyAdded || exists k :: 0 <= k < i && selected[k].sourceId == id
    {
      var candidate := selected[i];
      UncoveredExtends(wanted, selected, i);
      covered := covered + candidate.episodes * wanted;
      if candidate.sourceId !in alreadyAdded && candidate.sourceId !in added {
        added := added + [candidate.sourceId];
      }
    }
    assert selected[..|selected|] == selected;
  }

  lemma UncoveredExtends(missing: set<EpisodeRef>, selected: seq<Candidate>, i: nat)
    requires i < |selected|
    ensures Uncovered(missing, selected[..i + 1]) == Uncovered(missing, selected[..i]) - selected[i].episodes
  {
    forall e ensures e in Uncovered(missing, selected[..i + 1]) <==>
                     e in Uncovered(missing, selected[..i]) && e !in selected[i].episodes
    {
      UncoveredMeaning(missing, selected[..i + 1], e);
      UncoveredMeaning(missing, selected[..i], e);
      assert selected[..i + 1] == selected[..i] + [selected[i]];
    }
  }

  /** The least season of some episodes. */
  method LeastSeason(episodes: set<EpisodeRef>) returns (season: int)
    requires episodes != {}
    ensures exists e :: e in episodes && e.season == season
    ensures forall e :: e in episodes ==> season <= e.season
  {
    var least :| least in episodes;
    var rest := episodes - {least};
    while rest != {}
      invariant least in episodes && rest <= episodes
      invariant forall e :: e in episodes && e !in rest ==> least.season <= e.season
      decreases |rest|
    {
      var e :| e in rest;
      least := if e.season < least.season then e else least;
      rest := rest - {e};
    }
    return least.season;
  }

  /** The reported number of unresolved episodes counts exactly the missing ones that nothing offered. */
  method CompleteShow(s: Search, released: set<EpisodeRef>, present: set<EpisodeRef>, alreadyAdded: set<string>)
    returns (missingCount: nat, added: seq<string>, unresolvedCount: nat)
    requires s.Valid()
    ensures missingCount == |released - present|
    ensures unresolvedCount == |set e | e in released && e !in present && !s.Offered(e)|
    ensures Distinct(added) && forall id :: id in added ==> id !in alreadyAdded
  {
    var missing := released - present;
    var covered;
    added, covered := AcquireMissing(s, missing, alreadyAdded);
    assert missing - covered == set e | e in released && e !in present && !s.Offered(e);
    missingCount, unresolvedCount := |missing|, |missing - covered|;
  }
}
