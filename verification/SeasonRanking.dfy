/** Choosing sources for missing episodes: greedy set cover under a rank. */
module SeasonRanking {
  import opened Common
  import opened Ordering

  datatype EpisodeRef = EpisodeRef(season: int, episode: int)

  datatype Candidate = Candidate(
    sourceId: string, infoHash: Option<string>, title: string, releaseFamily: Option<string>,
    episodes: set<EpisodeRef>, cached: bool, actionUrl: Option<string>, matchLabels: seq<string>)

  /** What the rank depends on besides the candidate: the family to prefer, and case folding. */
  datatype Criteria = Criteria(dominantFamily: Option<string>, casefold: string -> string)

  predicate SameFamily(k: Criteria, c: Candidate) {
    k.dominantFamily.Some? && c.releaseFamily == k.dominantFamily
  }

  function Coverage(c: Candidate, remaining: set<EpisodeRef>): nat {
    |c.episodes * remaining|
  }

  /** Cached before uncached, then the dominant family, then more coverage, then the folded title. */
  predicate RankLess(k: Criteria, a: Candidate, b: Candidate, remaining: set<EpisodeRef>) {
    if a.cached != b.cached then a.cached
    else if SameFamily(k, a) != SameFamily(k, b) then SameFamily(k, a)
    else if Coverage(a, remaining) != Coverage(b, remaining) then Coverage(a, remaining) > Coverage(b, remaining)
    else StringLess(k.casefold(a.title), k.casefold(b.title))
  }

  /** The first element of a stable sort by rank. */
  function Best(k: Criteria, s: seq<Candidate>, remaining: set<EpisodeRef>): (best: Candidate)
    requires s != []
    ensures best in s
  {
    if |s| == 1 then s[0]
    else
      var best := Best(k, s[1..], remaining);
      if RankLess(k, best, s[0], remaining) then best else s[0]
  }

  lemma RankNegativelyTransitive(k: Criteria, a: Candidate, b: Candidate, c: Candidate, remaining: set<EpisodeRef>)
    requires !RankLess(k, a, b, remaining) && !RankLess(k, b, c, remaining)
    ensures !RankLess(k, a, c, remaining)
  {
    var x, y, z := k.casefold(a.title), k.casefold(b.title), k.casefold(c.title);
    StringLessTotal(x, y);
    StringLessTotal(y, z);
    if StringLess(x, z) && StringLess(z, y) {
      StringLessTransitive(x, z, y);
    }
  }

  lemma RankIrreflexive(k: Criteria, a: Candidate, b: Candidate, remaining: set<EpisodeRef>)
    ensures !(RankLess(k, a, b, remaining) && RankLess(k, b, a, remaining))
  {
    StringLessTotal(k.casefold(a.title), k.casefold(b.title));
  }

  lemma {:induction false} BestIsMinimal(k: Criteria, s: seq<Candidate>, remaining: set<EpisodeRef>)
    requires s != []
    ensures forall c :: c in s ==> !RankLess(k, c, Best(k, s, remaining), remaining)
  {
    var best := Best(k, s, remaining);
    if |s| == 1 {
      RankIrreflexive(k, s[0], s[0], remaining);
    } else {
      var rest := Best(k, s[1..], remaining);
      BestIsMinimal(k, s[1..], remaining);
      RankIrreflexive(k, rest, s[0], remaining);
      RankIrreflexive(k, s[0], s[0], remaining);
      forall c | c in s ensures !RankLess(k, c, best, remaining) {
        if c in s[1..] && best == s[0] {
          RankNegativelyTransitive(k, c, rest, s[0], remaining);
        }
      }
    }
  }

  // ---------- Greedy selection ----------

  function Useful(available: seq<Candidate>, remaining: set<EpisodeRef>): seq<Candidate> {
    Filter((c: Candidate) => c.episodes * remaining != {}, available)
  }

  function OtherSources(available: seq<Candidate>, sourceId: string): seq<Candidate> {
    Filter((c: Candidate) => c.sourceId != sourceId, available)
  }

  function Eligible(candidates: seq<Candidate>, allowUncached: bool): seq<Candidate> {
    Filter((c: Candidate) => c.cached || allowUncached, candidates)
  }

  function Complete(available: seq<Candidate>, missing: set<EpisodeRef>): seq<Candidate> {
    Filter((c: Candidate) => missing <= c.episodes, available)
  }

  function Greedy(k: Criteria, available: seq<Candidate>, remaining: set<EpisodeRef>): seq<Candidate>
    decreases |remaining|
  {
    var useful := Useful(available, remaining);
    if useful == [] then []
    else
      var chosen := Best(k, useful, remaining);
      RemainingShrinks(chosen, remaining);
      [chosen] + Greedy(k, OtherSources(available, chosen.sourceId), remaining - chosen.episodes)
  }

  function Choose(k: Criteria, candidates: seq<Candidate>, missing: set<EpisodeRef>, allowUncached: bool): seq<Candidate> {
    var available := Eligible(candidates, allowUncached);
    var complete := Complete(available, missing);
    if complete != [] then [Best(k, complete, missing)] else Greedy(k, available, missing)
  }

  lemma RemainingShrinks(c: Candidate, remaining: set<EpisodeRef>)
    requires c.episodes * remaining != {}
    ensures |remaining - c.episodes| == |remaining| - Coverage(c, remaining) < |remaining|
  {
    assert remaining == (remaining - c.episodes) + c.episodes * remaining;
  }

  method ChooseCandidates(k: Criteria, candidates: seq<Candidate>, missing: set<EpisodeRef>, allowUncached: bool)
    returns (selected: seq<Candidate>)
    ensures selected == Choose(k, candidates, missing, allowUncached)
  {
    hide Greedy, Best, Filter;
    var remaining := missing;
    var available := Eligible(candidates, allowUncached);
    var complete := Complete(available, missing);
    if complete != [] {
      return [Best(k, complete, remaining)];
    }
    selected := [];
    ghost var whole := Greedy(k, available, remaining);
    while remaining != {}
      invariant whole == selected + Greedy(k, available, remaining)
      decreases |remaining|
    {
      var useful := Useful(available, remaining);
      if useful == [] {
        break;
      }
      var chosen := Best(k, useful, remaining);
      GreedyStep(k, available, remaining);
      selected := selected + [chosen];
      remaining := remaining - chosen.episodes;
      available := OtherSources(available, chosen.sourceId);
    }
    GreedyStops(k, available, remaining);
  }

  lemma GreedyStep(k: Criteria, available: seq<Candidate>, remaining: set<EpisodeRef>)
    requires Useful(available, remaining) != []
    ensures var chosen := Best(k, Useful(available, remaining), remaining);
            && |remaining - chosen.episodes| < |remaining|
            && Greedy(k, available, remaining)
               == [chosen] + Greedy(k, OtherSources(available, chosen.sourceId), remaining - chosen.episodes)
  {
    RemainingShrinks(Best(k, Useful(available, remaining), remaining), remaining);
  }

  lemma GreedyStops(k: Criteria, available: seq<Candidate>, remaining: set<EpisodeRef>)
    requires remaining == {} || Useful(available, remaining) == []
    ensures Greedy(k, available, remaining) == []
  {
    if remaining == {} && Useful(available, remaining) != [] {
      assert Useful(available, remaining)[0].episodes * remaining == {};
    }
  }

  // ---------- Which candidate is taken ----------

  /** In the words of the rank's meaning: of the candidates in `s` that `open` admits, the one at `x` is cached if any is;
      of those as cached as it, it is of the dominant family if any is; of those, none has more of the episodes; of
      those, none has a smaller folded title, nor the same one further in front. */
  ghost predicate Foremost(k: Criteria, s: seq<Candidate>, open: Candidate -> bool, episodes: set<EpisodeRef>, x: nat) {
    && x < |s| && open(s[x])
    && forall y :: 0 <= y < |s| && open(s[y]) ==>
         && (s[y].cached ==> s[x].cached)
         && (s[y].cached == s[x].cached ==>
               && (k.dominantFamily.Some? && s[y].releaseFamily == k.dominantFamily ==> s[x].releaseFamily == k.dominantFamily)
               && ((k.dominantFamily.Some? ==> (s[y].releaseFamily == k.dominantFamily <==> s[x].releaseFamily == k.dominantFamily)) ==>
                     && |s[y].episodes * episodes| <= |s[x].episodes * episodes|
                     && (|s[y].episodes * episodes| == |s[x].episodes * episodes| ==>
                           && !StringLess(k.casefold(s[y].title), k.casefold(s[x].title))
                           && (y < x ==> k.casefold(s[y].title) != k.casefold(s[x].title)))))
  }

  lemma {:induction false} BestIsForemost(
    k: Criteria, s: seq<Candidate>, open: Candidate -> bool, episodes: set<EpisodeRef>) returns (x: nat)
    requires Filter(open, s) != []
    ensures Foremost(k, s, open, episodes, x) && s[x] == Best(k, Filter(open, s), episodes)
  {
    var rest := Filter(open, s[1..]);
    if rest == [] {
      x := 0;
      forall y | 0 < y < |s| ensures !open(s[y]) {
        assert s[1..][y - 1] == s[y];
      }
      StringLessTotal(k.casefold(s[0].title), k.casefold(s[0].title));
    } else {
      var z := BestIsForemost(k, s[1..], open, episodes);
      if !open(s[0]) {
        x := z + 1;
        ForemostLater(k, s, open, episodes, z);
      } else {
        assert Filter(open, s)[1..] == rest && Filter(open, s)[0] == s[0];
        if RankLess(k, s[z + 1], s[0], episodes) {
          x := z + 1;
          ForemostLater(k, s, open, episodes, z);
        } else {
          x := 0;
          ForemostFirst(k, s, open, episodes, z);
        }
      }
    }
  }

  lemma ForemostLater(k: Criteria, s: seq<Candidate>, open: Candidate -> bool, episodes: set<EpisodeRef>, z: nat)
    requires s != [] && Foremost(k, s[1..], open, episodes, z)
    requires open(s[0]) ==> RankLess(k, s[z + 1], s[0], episodes)
    ensures Foremost(k, s, open, episodes, z + 1)
  {
    StringLessTotal(k.casefold(s[0].title), k.casefold(s[z + 1].title));
    forall y | 0 < y < |s| && open(s[y]) ensures s[1..][y - 1] == s[y] {
    }
  }

  lemma ForemostFirst(k: Criteria, s: seq<Candidate>, open: Candidate -> bool, episodes: set<EpisodeRef>, z: nat)
    requires s != [] && open(s[0]) && Foremost(k, s[1..], open, episodes, z)
    requires !RankLess(k, s[z + 1], s[0], episodes)
    ensures Foremost(k, s, open, episodes, 0)
  {
    var a, b := k.casefold(s[0].title), k.casefold(s[z + 1].title);
    StringLessTotal(a, a);
    StringLessTotal(a, b);
    forall y | 0 < y < |s| && open(s[y])
      ensures s[1..][y - 1] == s[y] && (!StringLess(b, a) && !StringLess(k.casefold(s[y].title), b) ==>
                                          !StringLess(k.casefold(s[y].title), a))
    {
      StringLessTotal(k.casefold(s[y].title), b);
      if StringLess(k.casefold(s[y].title), a) && StringLess(a, b) {
        StringLessTransitive(k.casefold(s[y].title), a, b);
      }
      if StringLess(b, k.casefold(s[y].title)) && StringLess(k.casefold(s[y].title), a) {
        StringLessTransitive(b, k.casefold(s[y].title), a);
      }
    }
  }

  /** Eligible, of none of the sources taken, and with some of the episodes. */
  function OpenTo(allowUncached: bool, taken: set<string>, episodes: set<EpisodeRef>): Candidate -> bool {
    (c: Candidate) => (c.cached || allowUncached) && c.sourceId !in taken && c.episodes * episodes != {}
  }

  function FromOthers(allowUncached: bool, taken: set<string>): Candidate -> bool {
    (c: Candidate) => (c.cached || allowUncached) && c.sourceId !in taken
  }

  function Untaken(candidates: seq<Candidate>, allowUncached: bool, taken: set<string>): seq<Candidate> {
    Filter(FromOthers(allowUncached, taken), candidates)
  }

  function SourcesOf(picks: seq<Candidate>): set<string> {
    set c | c in picks :: c.sourceId
  }

  lemma UsefulIsOpen(candidates: seq<Candidate>, allowUncached: bool, taken: set<string>, episodes: set<EpisodeRef>)
    ensures Useful(Untaken(candidates, allowUncached, taken), episodes) ==
            Filter(OpenTo(allowUncached, taken, episodes), candidates)
  {
    FilterTwice((c: Candidate) => c.episodes * episodes != {}, FromOthers(allowUncached, taken),
                OpenTo(allowUncached, taken, episodes), candidates);
  }

  lemma OthersAreUntaken(candidates: seq<Candidate>, allowUncached: bool, taken: set<string>, id: string)
    ensures OtherSources(Untaken(candidates, allowUncached, taken), id) == Untaken(candidates, allowUncached, taken + {id})
  {
    FilterTwice((c: Candidate) => c.sourceId != id, FromOthers(allowUncached, taken),
                FromOthers(allowUncached, taken + {id}), candidates);
  }

  lemma {:induction false} GreedyIsForemost(
    k: Criteria, candidates: seq<Candidate>, allowUncached: bool, taken: set<string>, remaining: set<EpisodeRef>, i: nat)
    returns (x: nat)
    requires i < |Greedy(k, Untaken(candidates, allowUncached, taken), remaining)|
    ensures var picks := Greedy(k, Untaken(candidates, allowUncached, taken), remaining);
            var left := Uncovered(remaining, picks[..i]);
            && Foremost(k, candidates, OpenTo(allowUncached, taken + SourcesOf(picks[..i]), left), left, x)
            && candidates[x] == picks[i]
    decreases i
  {
    hide Foremost, Untaken, OpenTo, OtherSources, Useful, Best, Filter;
    var available := Untaken(candidates, allowUncached, taken);
    var picks := Greedy(k, available, remaining);
    UsefulIsOpen(candidates, allowUncached, taken, remaining);
    if i == 0 {
      assert picks[..0] == [] && taken + SourcesOf([]) == taken;
      x := BestIsForemost(k, candidates, OpenTo(allowUncached, taken, remaining), remaining);
    } else {
      var chosen, others, left := GreedyUnfolds(k, available, remaining, i);
      OthersAreUntaken(candidates, allowUncached, taken, chosen.sourceId);
      x := GreedyIsForemost(k, candidates, allowUncached, taken + {chosen.sourceId}, left, i - 1);
      var rest := Greedy(k, others, left);
      assert picks[..i] == [chosen] + rest[..i - 1];
      assert Uncovered(remaining, picks[..i]) == Uncovered(left, rest[..i - 1]);
      assert taken + SourcesOf(picks[..i]) == taken + {chosen.sourceId} + SourcesOf(rest[..i - 1]);
    }
  }

  /** Of the eligible candidates that have all that is missing the foremost is taken alone.  If there are none, each pick
      is the foremost of those that are eligible, from none of the sources picked before, and have some of what the picks
      before it leave uncovered. */
  lemma ChosenIsForemost(k: Criteria, candidates: seq<Candidate>, missing: set<EpisodeRef>, allowUncached: bool, i: nat)
    returns (x: nat)
    requires i < |Choose(k, candidates, missing, allowUncached)|
    ensures var picks := Choose(k, candidates, missing, allowUncached);
            var whole := (c: Candidate) => (c.cached || allowUncached) && missing <= c.episodes;
            var left := Uncovered(missing, picks[..i]);
            && x < |candidates| && candidates[x] == picks[i]
            && (if exists c :: c in candidates && whole(c) then |picks| == 1 && Foremost(k, candidates, whole, missing, x)
                else Foremost(k, candidates, OpenTo(allowUncached, SourcesOf(picks[..i]), left), left, x))
  {
    var available := Eligible(candidates, allowUncached);
    var complete := Complete(available, missing);
    var whole := (c: Candidate) => (c.cached || allowUncached) && missing <= c.episodes;
    FilterTwice((c: Candidate) => missing <= c.episodes, (c: Candidate) => c.cached || allowUncached, whole, candidates);
    assert complete == Filter(whole, candidates);
    if complete != [] {
      assert complete[0] in candidates && whole(complete[0]);
      x := BestIsForemost(k, candidates, whole, missing);
    } else {
      forall c | c in candidates ensures !whole(c) {
        assert c !in complete;
      }
      EligibleIsUntaken(candidates, allowUncached);
      hide Foremost, Eligible, Complete, OpenTo, Untaken, Filter;
      x := GreedyIsForemost(k, candidates, allowUncached, {}, missing, i);
      var picks := Choose(k, candidates, missing, allowUncached);
      assert {} + SourcesOf(picks[..i]) == SourcesOf(picks[..i]);
      ForemostIsThere(k, candidates, OpenTo(allowUncached, SourcesOf(picks[..i]), Uncovered(missing, picks[..i])),
                      Uncovered(missing, picks[..i]), x);
    }
  }

  lemma ForemostIsThere(k: Criteria, s: seq<Candidate>, open: Candidate -> bool, episodes: set<EpisodeRef>, x: nat)
    requires Foremost(k, s, open, episodes, x)
    ensures x < |s|
  {
  }

  lemma EligibleIsUntaken(candidates: seq<Candidate>, allowUncached: bool)
    ensures Eligible(candidates, allowUncached) == Untaken(candidates, allowUncached, {})
  {
    FilterSame((c: Candidate) => c.cached || allowUncached,
               FromOthers(allowUncached, {}), candidates);
  }

  // ---------- What the selection covers ----------

  ghost predicate OneCandidatePerSource(s: seq<Candidate>) {
    forall c, d :: c in s && d in s && c.sourceId == d.sourceId ==> c == d
  }

  /** The missing episodes that no selected candidate has. */
  function Uncovered(missing: set<EpisodeRef>, selected: seq<Candidate>): set<EpisodeRef> {
    if selected == [] then missing else Uncovered(missing - selected[0].episodes, selected[1..])
  }

  lemma {:induction false} UncoveredMeaning(missing: set<EpisodeRef>, selected: seq<Candidate>, e: EpisodeRef)
    ensures e in Uncovered(missing, selected) <==> e in missing && forall c :: c in selected ==> e !in c.episodes
  {
    if selected != [] {
      UncoveredMeaning(missing - selected[0].episodes, selected[1..], e);
      assert selected == [selected[0]] + selected[1..];
    }
  }

  /** Greedy selection leaves exactly the episodes that no available candidate has. */
  lemma {:induction false} GreedyCovers(k: Criteria, available: seq<Candidate>, remaining: set<EpisodeRef>, e: EpisodeRef)
    requires OneCandidatePerSource(available) && e in remaining
    ensures e in Uncovered(remaining, Greedy(k, available, remaining)) <==> forall c :: c in available ==> e !in c.episodes
    decreases |remaining|
  {
    var useful := Useful(available, remaining);
    if useful == [] {
      forall c | c in available ensures e !in c.episodes {
        assert c !in useful;
        assert e in c.episodes ==> e in c.episodes * remaining;
      }
    } else {
      var chosen := Best(k, useful, remaining);
      var others := OtherSources(available, chosen.sourceId);
      RemainingShrinks(chosen, remaining);
      var rest := Greedy(k, others, remaining - chosen.episodes);
      assert Greedy(k, available, remaining)[1..] == rest;
      if e in chosen.episodes {
        UncoveredMeaning(remaining - chosen.episodes, rest, e);
      } else {
        GreedyCovers(k, others, remaining - chosen.episodes, e);
      }
    }
  }

  /** A missing episode is covered exactly when some eligible candidate has it. */
  lemma SelectionCovers(
    k: Criteria, candidates: seq<Candidate>, missing: set<EpisodeRef>, allowUncached: bool, e: EpisodeRef)
    requires OneCandidatePerSource(candidates) && e in missing
    ensures e in Uncovered(missing, Choose(k, candidates, missing, allowUncached)) <==>
            forall c :: c in candidates && (c.cached || allowUncached) ==> e !in c.episodes
  {
    var available := Eligible(candidates, allowUncached);
    var complete := Complete(available, missing);
    if complete != [] {
      var best := Best(k, complete, missing);
      UncoveredMeaning(missing, [best], e);
      assert best in complete && best in [best];
    } else {
      GreedyCovers(k, available, missing, e);
    }
  }

  /** The first pick of the greedy selection, and what is left for the others. */
  lemma GreedyUnfolds(k: Criteria, available: seq<Candidate>, remaining: set<EpisodeRef>, i: nat)
    returns (chosen: Candidate, others: seq<Candidate>, left: set<EpisodeRef>)
    requires 0 < i <= |Greedy(k, available, remaining)|
    ensures Useful(available, remaining) != [] && chosen == Best(k, Useful(available, remaining), remaining)
    ensures chosen in available && chosen.episodes * remaining != {}
    ensures others == OtherSources(available, chosen.sourceId) && left == remaining - chosen.episodes
    ensures i - 1 <= |Greedy(k, others, left)|
    ensures Greedy(k, available, remaining) == [chosen] + Greedy(k, others, left)
    ensures Uncovered(remaining, Greedy(k, available, remaining)[..i]) == Uncovered(left, Greedy(k, others, left)[..i - 1])
  {
    var useful := Useful(available, remaining);
    chosen := Best(k, useful, remaining);
    others, left := OtherSources(available, chosen.sourceId), remaining - chosen.episodes;
    RemainingShrinks(chosen, remaining);
    var picks, rest := Greedy(k, available, remaining), Greedy(k, others, left);
    assert picks == [chosen] + rest;
    assert picks[..i][0] == chosen && picks[..i][1..] == rest[..i - 1];
  }

  /** Every pick covers a missing episode that the picks before it do not. */
  lemma {:induction false} EveryPickHelps(k: Criteria, available: seq<Candidate>, remaining: set<EpisodeRef>, i: nat)
    requires i < |Greedy(k, available, remaining)|
    ensures var picks := Greedy(k, available, remaining);
            picks[i] in available && picks[i].episodes * Uncovered(remaining, picks[..i]) != {}
    decreases i
  {
    var picks := Greedy(k, available, remaining);
    if i == 0 {
      assert picks[..0] == [] && picks[0] == Best(k, Useful(available, remaining), remaining);
    } else {
      var chosen, others, left := GreedyUnfolds(k, available, remaining, i);
      EveryPickHelps(k, others, left, i - 1);
    }
  }

  /** So there are at most as many picks as missing episodes, each from a source of its own. */
  lemma {:induction false} PicksAreFew(k: Criteria, available: seq<Candidate>, remaining: set<EpisodeRef>)
    ensures var picks := Greedy(k, available, remaining);
            |picks| <= |remaining| && forall i, j :: 0 <= i < j < |picks| ==> picks[i].sourceId != picks[j].sourceId
    decreases |remaining|
  {
    var useful := Useful(available, remaining);
    if useful != [] {
      var chosen := Best(k, useful, remaining);
      var others, left := OtherSources(available, chosen.sourceId), remaining - chosen.episodes;
      RemainingShrinks(chosen, remaining);
      PicksAreFew(k, others, left);
      var rest := Greedy(k, others, left);
      forall j | 0 <= j < |rest| ensures rest[j].sourceId != chosen.sourceId {
        EveryPickHelps(k, others, left, j);
      }
      assert Greedy(k, available, remaining) == [chosen] + rest;
    }
  }

  /** Nothing is selected that is not an eligible candidate. */
  lemma SelectionIsEligible(k: Criteria, candidates: seq<Candidate>, missing: set<EpisodeRef>, allowUncached: bool)
    ensures forall c :: c in Choose(k, candidates, missing, allowUncached) ==> c in Eligible(candidates, allowUncached)
  {
    var available := Eligible(candidates, allowUncached);
    if Complete(available, missing) == [] {
      var picks := Greedy(k, available, missing);
      forall i | 0 <= i < |picks| ensures picks[i] in available {
        EveryPickHelps(k, available, missing, i);
      }
    }
  }

  // ---------- The approximation bound ----------

  function Pow(b: nat, n: nat): nat {
    if n == 0 then 1 else b * Pow(b, n - 1)
  }

  /** The rank looks at coverage first: all candidates agree on what ranks before it. */
  ghost predicate Uniform(k: Criteria, s: seq<Candidate>) {
    forall c, d :: c in s && d in s ==> c.cached == d.cached && SameFamily(k, c) == SameFamily(k, d)
  }

  ghost predicate Covers(cover: seq<Candidate>, episodes: set<EpisodeRef>) {
    forall e :: e in episodes ==> exists c :: c in cover && e in c.episodes
  }

  lemma CoverOfRest(cover: seq<Candidate>, episodes: set<EpisodeRef>)
    requires cover != [] && Covers(cover, episodes)
    ensures Covers(cover[1..], episodes - cover[0].episodes)
  {
    forall e | e in episodes - cover[0].episodes ensures exists c :: c in cover[1..] && e in c.episodes {
      var c :| c in cover && e in c.episodes;
      assert c in cover[1..];
    }
  }

  lemma CoverageOfLess(c: Candidate, less: set<EpisodeRef>, more: set<EpisodeRef>)
    requires less <= more
    ensures Coverage(c, less) <= Coverage(c, more)
  {
    SubsetSize(c.episodes * less, c.episodes * more);
  }

  lemma CoverageSplits(c: Candidate, episodes: set<EpisodeRef>)
    ensures |episodes| == |episodes - c.episodes| + Coverage(c, episodes)
  {
    assert episodes == (episodes - c.episodes) + c.episodes * episodes;
  }

  /** If no member of a cover has more than `m` of the episodes, the episodes number at most `m` times its size. */
  lemma {:induction false} CoverShares(cover: seq<Candidate>, episodes: set<EpisodeRef>, m: nat)
    requires Covers(cover, episodes)
    requires forall c :: c in cover ==> Coverage(c, episodes) <= m
    ensures |episodes| <= |cover| * m
  {
    if cover == [] {
      assert forall e :: e in episodes ==> exists c :: c in cover && e in c.episodes;
      assert episodes == {};
    } else {
      hide Covers, Coverage;
      var rest := episodes - cover[0].episodes;
      CoverOfRest(cover, episodes);
      forall c | c in cover[1..] ensures Coverage(c, rest) <= m {
        assert c in cover;
        CoverageOfLess(c, rest, episodes);
      }
      CoverShares(cover[1..], rest, m);
      CoverageSplits(cover[0], episodes);
      assert cover[0] in cover;
      OneMore(|cover|, m);
    }
  }

  lemma OneMore(n: nat, m: nat)
    requires n > 0
    ensures n * m == (n - 1) * m + m
  {
  }

  /** Every member of the cover is still available or has nothing left to give. */
  ghost predicate StillCovers(cover: seq<Candidate>, available: seq<Candidate>, remaining: set<EpisodeRef>) {
    Covers(cover, remaining) && forall c :: c in cover ==> c in available || c.episodes * remaining == {}
  }

  /** No member of the cover has more of what remains than the candidate of least rank. */
  lemma PickCoversMost(
    k: Criteria, available: seq<Candidate>, remaining: set<EpisodeRef>, cover: seq<Candidate>, c: Candidate)
    requires Uniform(k, available) && StillCovers(cover, available, remaining) && c in cover
    requires Useful(available, remaining) != []
    ensures Coverage(c, remaining) <= Coverage(Best(k, Useful(available, remaining), remaining), remaining)
  {
    var useful := Useful(available, remaining);
    BestIsMinimal(k, useful, remaining);
    if c.episodes * remaining != {} {
      assert c in useful;
    }
  }

  lemma PickTakesItsShare(k: Criteria, available: seq<Candidate>, remaining: set<EpisodeRef>, cover: seq<Candidate>)
    requires Uniform(k, available) && StillCovers(cover, available, remaining)
    requires Useful(available, remaining) != []
    ensures |remaining| <= |cover| * Coverage(Best(k, Useful(available, remaining), remaining), remaining)
  {
    hide Uniform, Useful, Best, Coverage, Covers;
    forall c | c in cover
      ensures Coverage(c, remaining) <= Coverage(Best(k, Useful(available, remaining), remaining), remaining)
    {
      PickCoversMost(k, available, remaining, cover, c);
    }
    CoverShares(cover, remaining, Coverage(Best(k, Useful(available, remaining), remaining), remaining));
  }

  lemma PickKeepsCover(available: seq<Candidate>, remaining: set<EpisodeRef>, cover: seq<Candidate>, chosen: Candidate)
    requires OneCandidatePerSource(available) && StillCovers(cover, available, remaining) && chosen in available
    ensures StillCovers(cover, OtherSources(available, chosen.sourceId), remaining - chosen.episodes)
  {
    var left := remaining - chosen.episodes;
    forall c | c in cover ensures c in OtherSources(available, chosen.sourceId) || c.episodes * left == {} {
      assert c.episodes * left <= c.episodes * remaining;
    }
  }

  /** At most the fraction ((n-1)/n)^i of `total` is left in `u`. */
  ghost predicate AtMostFraction(u: nat, total: nat, n: nat, i: nat)
    requires n > 0
  {
    u * Pow(n, i) <= total * Pow(n - 1, i)
  }

  lemma AtMostFractionStep(u: nat, left: nat, total: nat, n: nat, i: nat)
    requires n > 0 && i > 0 && AtMostFraction(u, left, n, i - 1) && AtMostFraction(left, total, n, 1)
    ensures AtMostFraction(u, total, n, i)
  {
    assert Pow(n, 1) == n * Pow(n, 0) == n && Pow(n - 1, 1) == (n - 1) * Pow(n - 1, 0) == n - 1;
    BoundStep(u, Pow(n, i - 1), left, Pow(n - 1, i - 1), n, total);
  }

  lemma AtMostFractionEnds(total: nat, n: nat, i: nat)
    requires n > 0
    ensures AtMostFraction(total, total, n, 0)
    ensures AtMostFraction(0, total, n, i)
  {
    assert Pow(n, 0) == 1 && Pow(n - 1, 0) == 1;
    Scale(total, 0, Pow(n - 1, i));
  }

  lemma BoundStep(u: nat, p: nat, r': nat, q: nat, n: nat, r: nat)
    requires n > 0 && u * p <= r' * q && n * r' <= (n - 1) * r
    ensures u * (n * p) <= r * ((n - 1) * q)
  {
    calc {
      u * (n * p);
      n * (u * p);
    <= { Scale(n, u * p, r' * q); }
      n * (r' * q);
      n * r' * q;
    <= { Scale(q, n * r', (n - 1) * r); }
      (n - 1) * r * q;
      r * ((n - 1) * q);
    }
  }

  lemma Scale(k: nat, x: nat, y: nat)
    requires x <= y
    ensures k * x <= k * y && x * k <= y * k
  {
  }

  /** The first pick leaves at most the fraction (n-1)/n. */
  lemma PickLeavesAFraction(r: nat, r': nat, m: nat, n: nat)
    requires n > 0 && r' == r - m && r <= n * m
    ensures AtMostFraction(r', r, n, 1)
  {
    assert Pow(n, 1) == n * Pow(n, 0) == n && Pow(n - 1, 1) == (n - 1) * Pow(n - 1, 0) == n - 1;
    calc {
      n * r';
      n * (r - m);
      n * r - n * m;
    <=
      n * r - r;
      (n - 1) * r;
    }
  }

  lemma NothingPicked(missing: set<EpisodeRef>, selected: seq<Candidate>)
    requires |selected| == 0
    ensures Uncovered(missing, selected) == missing
  {
  }

  lemma PickKeepsPremises(
    k: Criteria, available: seq<Candidate>, remaining: set<EpisodeRef>, cover: seq<Candidate>, chosen: Candidate)
    requires Uniform(k, available) && OneCandidatePerSource(available) && StillCovers(cover, available, remaining)
    requires chosen in available
    ensures var others := OtherSources(available, chosen.sourceId);
            && Uniform(k, others) && OneCandidatePerSource(others)
            && StillCovers(cover, others, remaining - chosen.episodes)
  {
    PickKeepsCover(available, remaining, cover, chosen);
  }

  lemma {:induction false} GreedyBound(
    k: Criteria, available: seq<Candidate>, remaining: set<EpisodeRef>, cover: seq<Candidate>, i: nat)
    requires Uniform(k, available) && OneCandidatePerSource(available) && StillCovers(cover, available, remaining)
    requires cover != [] && i <= |Greedy(k, available, remaining)|
    ensures AtMostFraction(|Uncovered(remaining, Greedy(k, available, remaining)[..i])|, |remaining|, |cover|, i)
    decreases i
  {
    hide *;
    if i == 0 {
      AtMostFractionEnds(|remaining|, |cover|, 0);
      NothingPicked(remaining, Greedy(k, available, remaining)[..0]);
    } else {
      var chosen, others, left := GreedyUnfolds(k, available, remaining, i);
      RemainingShrinks(chosen, remaining);
      PickTakesItsShare(k, available, remaining, cover);
      PickKeepsPremises(k, available, remaining, cover, chosen);
      GreedyBound(k, others, left, cover, i - 1);
      PickLeavesAFraction(|remaining|, |left|, Coverage(chosen, remaining), |cover|);
      AtMostFractionStep(|Uncovered(left, Greedy(k, others, left)[..i - 1])|, |left|, |remaining|, |cover|, i);
    }
  }

  /** When the eligible candidates differ only in coverage and title and some `n` of them cover what
      is missing, the first `i` picks leave at most the fraction ((n-1)/n)^i of it. */
  lemma SelectionBound(
    k: Criteria, candidates: seq<Candidate>, missing: set<EpisodeRef>, allowUncached: bool,
    cover: seq<Candidate>, i: nat)
    requires OneCandidatePerSource(candidates) && Uniform(k, Eligible(candidates, allowUncached))
    requires cover != [] && Covers(cover, missing) && forall c :: c in cover ==> c in Eligible(candidates, allowUncached)
    requires i <= |Choose(k, candidates, missing, allowUncached)|
    ensures AtMostFraction(|Uncovered(missing, Choose(k, candidates, missing, allowUncached)[..i])|,
                           |missing|, |cover|, i)
  {
    hide AtMostFraction, Pow, Greedy;
    var available := Eligible(candidates, allowUncached);
    var complete := Complete(available, missing);
    if complete == [] {
      GreedyBound(k, available, missing, cover, i);
    } else {
      var best := Best(k, complete, missing);
      AtMostFractionEnds(|missing|, |cover|, i);
      assert Uncovered(missing, [best]) == Uncovered(missing - best.episodes, []) == {};
      assert [best][..1] == [best] && [best][..0] == [];
    }
  }
}
