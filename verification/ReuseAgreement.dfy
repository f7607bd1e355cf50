/** Reuse against reprocessing: when an accepted row stands for what processing its file again would give. */
module ReuseAgreement {
  import opened Common
  import opened IdentityInputs
  import opened LibraryFiles
  import opened LibraryPaths
  import opened SqlLike
  import opened SyncDecisions
  import opened TorBoxFiles

  function TmdbOf(known: Option<Known>): Option<string> {
    if known.Some? then known.value.tmdbId else None
  }

  function PosterOf(known: Option<Known>): Option<string> {
    if known.Some? then known.value.poster else None
  }

  /** Reprocessing comes to what reuse came to: the same refusal, the same exclusions, or the same entry with
      the same TMDB id and poster on record and nothing to report. */
  predicate Agrees(row: Synced, url: string, reused: Decision, anew: Decision) {
    if reused.Keep? then
      && anew.Print? && anew.entry == EntryOf(row, url) && anew.diagnostics == {}
      && TmdbOf(anew.known) == row.tmdbId && PosterOf(anew.known) == row.poster
    else anew == reused
  }

  // ---------- The exact condition ----------

  /** Classifier and override take the entry to `e`, by way of entries that can be made. */
  predicate ClassifiedAs(env: Env, start: Entry, e: Entry) {
    && ValidEntry(start) && ValidEntry(WithAnime(env, start))
    && WithOverride(env, WithAnime(env, start)) == e
  }

  /** A provider that is asked about the entry finds an identity without an id that says what the row says. */
  predicate AnswersAlike(env: Env, provider: Provider, start: Entry, row: Synced, e: Entry) {
    && ValidEntry(start) && ValidEntry(WithAnime(env, start)) && ValidEntry(WithOverride(env, WithAnime(env, start)))
    && var asked := WithOverride(env, WithAnime(env, start));
       var answer := provider.resolve(asked.title, asked.year, asked.category);
       && answer.status.Resolved? && answer.known.tmdbId.None? && answer.known.poster == row.poster
       && EntryWithIdentity(asked, answer.known) == e
  }

  /** Nothing is left to ask, or the answers would be those of the row.  With a selected identity that has an id:
      the provider adds no year or poster, and no override, nor the classifier where the identity has no category,
      moves the entry.  Without one: no alias has an id, and classifier, override and provider leave what is stored. */
  predicate Stable(env: Env, row: Synced, f: TorBoxFile, selected: Option<Known>) {
    var parsed, e := ParsedEntry(env, f), EntryOf(row, PlaybackUrl(env, Key(f)));
    ValidEntry(e) &&
    match KnownIdentity(env, parsed, selected)
    case Some(k) =>
      && selected.Some? && EnrichedIdentity(env, k) == k
      && (if k.category.Some? then WithOverride(env, e) == e else ClassifiedAs(env, EntryWithIdentity(parsed, k), e))
    case None =>
      match env.provider
      case None => row.poster.None? && ClassifiedAs(env, parsed, e)
      case Some(provider) => AnswersAlike(env, provider, parsed, row, e)
  }

  /** What resolving ends with is excluded by the same prefixes, with nothing to report. */
  predicate ExcludedAlike(env: Env, row: Synced, f: TorBoxFile, selected: Option<Known>)
    requires ValidEntry(ParsedEntry(env, f)) && ValidEntry(EntryOf(row, PlaybackUrl(env, Key(f))))
  {
    match ResolveEntry(env, ParsedEntry(env, f), selected)
    case Raised(_) => false
    case Ok((e, r)) =>
      ResolvedEntryIsValid(env, ParsedEntry(env, f), selected);
      && (r.None? || r.value.status.Resolved?)
      && Exclusions(env, e) == Exclusions(env, EntryOf(row, PlaybackUrl(env, Key(f))))
  }

  /** Title and year of an accepted row are those of the selected identity. */
  lemma IdentifiedEntry(env: Env, files: Files, row: Synced, f: TorBoxFile, hash: Option<string>, k: Known)
    requires Reusable(env, files, row, f, hash, Some(k)) && Faithful(env, row)
    ensures var e := EntryOf(row, PlaybackUrl(env, Key(f)));
            && EntryWithIdentity(ParsedEntry(env, f), k) == e.(category := EntryWithIdentity(ParsedEntry(env, f), k).category)
            && (k.category.Some? ==> EntryWithIdentity(ParsedEntry(env, f), k) == e)
            && row.tmdbId == k.tmdbId && row.poster == k.poster
  {
  }

  lemma EnrichedKeepsRest(env: Env, k: Known)
    ensures var known := EnrichedIdentity(env, k);
            known == k.(year := known.year, poster := known.poster)
  {
  }

  // ---------- Reprocessing, step by step ----------

  /** What an entry that has been resolved ends in. */
  function Ended(env: Env, e: Entry, known: Option<Known>, title: string): Decision {
    if !ValidEntry(e) then Raise(InvalidEntry)
    else if Exclusions(env, e) != {} then Skip({}, Exclusions(env, e))
    else Print(e, known, title, {})
  }

  /** What is left once identity and classification are settled. */
  function Settled(env: Env, start: Entry, e: Entry, known: Option<Known>, title: string): Decision {
    if !ValidEntry(start) || !ValidEntry(e) then Raise(InvalidEntry)
    else Ended(env, WithOverride(env, e), known, title)
  }

  lemma FreshOfKnown(env: Env, f: TorBoxFile, selected: Option<Known>, k: Known)
    requires ValidEntry(ParsedEntry(env, f)) && KnownIdentity(env, ParsedEntry(env, f), selected) == Some(k)
    ensures var parsed, known := ParsedEntry(env, f), EnrichedIdentity(env, k);
            var start := EntryWithIdentity(parsed, known);
            FreshDecision(env, f, selected) ==
            Settled(env, start, if known.category.None? then WithAnime(env, start) else start, Some(known), parsed.title)
  {
    hide ValidEntry, Exclusions, EnrichedIdentity, EntryWithIdentity, ParsedEntry, WithOverride, WithAnime, KnownIdentity;
  }

  lemma FreshOfUnknown(env: Env, f: TorBoxFile, selected: Option<Known>)
    requires ValidEntry(ParsedEntry(env, f)) && KnownIdentity(env, ParsedEntry(env, f), selected).None? && env.provider.None?
    ensures var parsed := ParsedEntry(env, f);
            FreshDecision(env, f, selected) == Settled(env, parsed, WithAnime(env, parsed), None, parsed.title)
  {
    hide ValidEntry, Exclusions, ParsedEntry, WithOverride, WithAnime, KnownIdentity;
  }

  /** How the answer of a provider that was asked about an entry ends. */
  function Answered(env: Env, asked: Entry, answer: Resolution, title: string): Decision {
    var e := EntryWithIdentity(asked, answer.known);
    if !ValidEntry(e) then Raise(InvalidEntry)
    else match answer.status
      case ProviderError => Skip({LookupFailed(title)}, {})
      case NoMatch =>
        if Exclusions(env, e) != {} then Skip({NoConfidentMatch(title)}, Exclusions(env, e))
        else Print(e, Some(answer.known), title, {NoConfidentMatch(title)})
      case Resolved => Ended(env, e, Some(answer.known), title)
  }

  lemma FreshOfAsked(env: Env, f: TorBoxFile, selected: Option<Known>, provider: Provider)
    requires ValidEntry(ParsedEntry(env, f)) && KnownIdentity(env, ParsedEntry(env, f), selected).None?
    requires env.provider == Some(provider)
    ensures var parsed := ParsedEntry(env, f);
            var classified := WithAnime(env, parsed);
            FreshDecision(env, f, selected) ==
            if !ValidEntry(classified) || !ValidEntry(WithOverride(env, classified)) then Raise(InvalidEntry)
            else
              var asked := WithOverride(env, classified);
              Answered(env, asked, provider.resolve(asked.title, asked.year, asked.category), parsed.title)
  {
    hide ValidEntry, Exclusions, ParsedEntry, WithOverride, WithAnime, KnownIdentity, EntryWithIdentity;
  }

  // ---------- Rows that reuse keeps ----------

  lemma SettledYear(env: Env, start: Entry, e: Entry, known: Option<Known>, title: string)
    requires e == start || e == WithAnime(env, start)
    ensures var d := Settled(env, start, e, known, title); d.Print? ==> d.entry.year == start.year && d.known == known
  {
    hide ValidEntry, Exclusions, SourcePrefix;
  }

  /** With an identity that has an id. */
  lemma KeptWithIdentity(env: Env, files: Files, row: Synced, f: TorBoxFile, hash: Option<string>, k: Known)
    requires Reusable(env, files, row, f, hash, Some(k)) && Faithful(env, row) && k.tmdbId.Some?
    requires ReuseDecision(env, row, PlaybackUrl(env, Key(f))).Keep?
    ensures Agrees(row, PlaybackUrl(env, Key(f)), Keep(row), FreshDecision(env, f, Some(k))) <==> Stable(env, row, f, Some(k))
  {
    var parsed, known, e := ParsedEntry(env, f), EnrichedIdentity(env, k), EntryOf(row, PlaybackUrl(env, Key(f)));
    var start := EntryWithIdentity(parsed, known);
    FreshOfKnown(env, f, Some(k), k);
    IdentifiedEntry(env, files, row, f, hash, k);
    SettledYear(env, start, if known.category.None? then WithAnime(env, start) else start, Some(known), parsed.title);
    EnrichedKeepsRest(env, k);
    assert start.year == known.year;
    hide EnrichedIdentity, ValidEntry, Exclusions, ParsedEntry, WithAnime, WithOverride, PlaybackUrl, Reusable, FreshDecision,
      EntryWithIdentity, Faithful;
  }

  /** Without one, and without a provider. */
  lemma KeptWithoutProvider(env: Env, files: Files, row: Synced, f: TorBoxFile, hash: Option<string>, selected: Option<Known>)
    requires Reusable(env, files, row, f, hash, selected) && Faithful(env, row) && env.provider.None?
    requires KnownIdentity(env, ParsedEntry(env, f), selected).None?
    requires ReuseDecision(env, row, PlaybackUrl(env, Key(f))).Keep?
    ensures Agrees(row, PlaybackUrl(env, Key(f)), Keep(row), FreshDecision(env, f, selected)) <==> Stable(env, row, f, selected)
  {
    FreshOfUnknown(env, f, selected);
    assert row.tmdbId.None?;
    hide ValidEntry, Exclusions, ParsedEntry, WithAnime, WithOverride, PlaybackUrl, Reusable, FreshDecision, KnownIdentity;
  }

  /** Without one, with a provider to ask. */
  lemma KeptWithProvider(env: Env, files: Files, row: Synced, f: TorBoxFile, hash: Option<string>, selected: Option<Known>)
    requires Reusable(env, files, row, f, hash, selected) && Faithful(env, row) && env.provider.Some?
    requires KnownIdentity(env, ParsedEntry(env, f), selected).None?
    requires ReuseDecision(env, row, PlaybackUrl(env, Key(f))).Keep?
    ensures Agrees(row, PlaybackUrl(env, Key(f)), Keep(row), FreshDecision(env, f, selected)) <==> Stable(env, row, f, selected)
  {
    FreshOfAsked(env, f, selected, env.provider.value);
    assert row.tmdbId.None?;
    hide ValidEntry, Exclusions, ParsedEntry, WithAnime, WithOverride, PlaybackUrl, Reusable, FreshDecision, KnownIdentity,
      EntryWithIdentity;
  }

  /** A row without an id is never what an alias with an id leads to. */
  lemma KeptAgainstAlias(env: Env, files: Files, row: Synced, f: TorBoxFile, hash: Option<string>, k: Known)
    requires Reusable(env, files, row, f, hash, None) && Faithful(env, row)
    requires KnownIdentity(env, ParsedEntry(env, f), None) == Some(k)
    ensures !Agrees(row, PlaybackUrl(env, Key(f)), Keep(row), FreshDecision(env, f, None)) && !Stable(env, row, f, None)
  {
    FreshOfKnown(env, f, None, k);
    EnrichedKeepsRest(env, k);
    assert row.tmdbId.None? && k.tmdbId.Some?;
    hide ValidEntry, Exclusions, ParsedEntry, WithAnime, WithOverride, PlaybackUrl, Reusable, FreshDecision, KnownIdentity,
      EntryWithIdentity, EnrichedIdentity;
  }

  /** Every accepted row that is kept, whatever identity is selected for its file or none: reprocessing agrees
      exactly when the row is stable. */
  lemma KeptAgrees(env: Env, files: Files, row: Synced, f: TorBoxFile, hash: Option<string>, selected: Option<Known>)
    requires Reusable(env, files, row, f, hash, selected) && Faithful(env, row)
    requires ReuseDecision(env, row, PlaybackUrl(env, Key(f))).Keep?
    ensures Agrees(row, PlaybackUrl(env, Key(f)), Keep(row), FreshDecision(env, f, selected)) <==> Stable(env, row, f, selected)
  {
    hide Reusable, Faithful, ReuseDecision, Agrees, FreshDecision, Stable, PlaybackUrl, ParsedEntry, AliasIdentity;
    var known := KnownIdentity(env, ParsedEntry(env, f), selected);
    if known.None? {
      if env.provider.None? {
        KeptWithoutProvider(env, files, row, f, hash, selected);
      } else {
        KeptWithProvider(env, files, row, f, hash, selected);
      }
    } else if selected.Some? {
      KeptWithIdentity(env, files, row, f, hash, known.value);
    } else {
      KeptAgainstAlias(env, files, row, f, hash, known.value);
    }
  }

  // ---------- Every accepted row ----------

  /** What reprocessing a stable row ends in. */
  lemma StableEnds(env: Env, files: Files, row: Synced, f: TorBoxFile, hash: Option<string>, selected: Option<Known>)
    returns (known: Option<Known>)
    requires Reusable(env, files, row, f, hash, selected) && Faithful(env, row) && Stable(env, row, f, selected)
    ensures TmdbOf(known) == row.tmdbId && PosterOf(known) == row.poster
    ensures FreshDecision(env, f, selected) ==
            Ended(env, EntryOf(row, PlaybackUrl(env, Key(f))), known, ParsedEntry(env, f).title)
  {
    var parsed, k := ParsedEntry(env, f), KnownIdentity(env, ParsedEntry(env, f), selected);
    if k.Some? {
      known := k;
      FreshOfKnown(env, f, selected, k.value);
      IdentifiedEntry(env, files, row, f, hash, k.value);
    } else {
      assert row.tmdbId.None?;
      if env.provider.None? {
        known := None;
        FreshOfUnknown(env, f, selected);
      } else {
        FreshOfAsked(env, f, selected, env.provider.value);
        var asked := WithOverride(env, WithAnime(env, parsed));
        known := Some(env.provider.value.resolve(asked.title, asked.year, asked.category).known);
      }
    }
    hide ValidEntry, Exclusions, ParsedEntry, WithAnime, WithOverride, PlaybackUrl, Reusable, FreshDecision,
      EntryWithIdentity, EnrichedIdentity, AliasIdentity, Faithful;
  }

  lemma ExcludedAgrees(env: Env, row: Synced, f: TorBoxFile, selected: Option<Known>)
    requires ValidEntry(ParsedEntry(env, f)) && ReuseDecision(env, row, PlaybackUrl(env, Key(f))).Skip?
    ensures FreshDecision(env, f, selected) == ReuseDecision(env, row, PlaybackUrl(env, Key(f))) <==>
            ExcludedAlike(env, row, f, selected)
  {
    ResolvedEntryIsValid(env, ParsedEntry(env, f), selected);
    hide ValidEntry, Exclusions, ParsedEntry, ResolveEntry, PlaybackUrl;
  }

  /** Every accepted row, whatever identity is selected for its file or none.  One that reuse keeps is reprocessed
      alike exactly when it is stable; one that it skips, exactly when what resolving ends with is excluded by the
      same prefixes; one that cannot be an entry, exactly when resolving fails too. */
  lemma ReuseAgrees(env: Env, files: Files, row: Synced, f: TorBoxFile, hash: Option<string>, selected: Option<Known>)
    requires Reusable(env, files, row, f, hash, selected) && Faithful(env, row)
    ensures var url := PlaybackUrl(env, Key(f));
            var reused, anew := ReuseDecision(env, row, url), FreshDecision(env, f, selected);
            && ValidEntry(ParsedEntry(env, f))
            && (Agrees(row, url, reused, anew) <==>
                  match reused
                  case Keep(_) => Stable(env, row, f, selected)
                  case Skip(_, _) => ExcludedAlike(env, row, f, selected)
                  case _ => ResolveEntry(env, ParsedEntry(env, f), selected).Raised?)
    ensures Stable(env, row, f, selected) ==>
              Agrees(row, PlaybackUrl(env, Key(f)), ReuseDecision(env, row, PlaybackUrl(env, Key(f))), FreshDecision(env, f, selected))
  {
    var url := PlaybackUrl(env, Key(f));
    var reused := ReuseDecision(env, row, url);
    FaithfulParses(env, files, row, f, hash, selected);
    if reused.Keep? {
      KeptAgrees(env, files, row, f, hash, selected);
    } else if reused.Skip? {
      ExcludedAgrees(env, row, f, selected);
    }
    if Stable(env, row, f, selected) {
      var known := StableEnds(env, files, row, f, hash, selected);
    } else {
      RaisesOnlyInvalid(env, ParsedEntry(env, f), selected);
    }
    hide ValidEntry, Exclusions, ParsedEntry, ResolveEntry, PlaybackUrl, Stable, ExcludedAlike, Reusable, Faithful;
  }

  lemma FaithfulParses(env: Env, files: Files, row: Synced, f: TorBoxFile, hash: Option<string>, selected: Option<Known>)
    requires Reusable(env, files, row, f, hash, selected) && Faithful(env, row)
    ensures ValidEntry(ParsedEntry(env, f))
  {
  }

  lemma RaisesOnlyInvalid(env: Env, parsed: Entry, selected: Option<Known>)
    requires ValidEntry(parsed)
    ensures ResolveEntry(env, parsed, selected).Raised? ==> ResolveEntry(env, parsed, selected) == Raised(InvalidEntry)
  {
    hide ValidEntry, WithOverride, WithAnime, EntryWithIdentity, EnrichedIdentity, KnownIdentity;
  }

  /** A provider that never takes an identity without an id for resolved. */
  ghost predicate ResolvesWithId(provider: Provider) {
    forall title, year, category ::
      provider.resolve(title, year, category).status.Resolved? ==> provider.resolve(title, year, category).known.tmdbId.Some?
  }

  /** With such a provider, a kept row without an id is never reprocessed alike: the lookup that reuse leaves out
      finds an identity, fails, or is reported to find none. */
  lemma UnidentifiedNeverAgrees(
    env: Env, files: Files, row: Synced, f: TorBoxFile, hash: Option<string>, selected: Option<Known>, provider: Provider)
    requires Reusable(env, files, row, f, hash, selected) && Faithful(env, row) && row.tmdbId.None?
    requires env.provider == Some(provider) && ResolvesWithId(provider)
    requires ReuseDecision(env, row, PlaybackUrl(env, Key(f))).Keep?
    ensures !Agrees(row, PlaybackUrl(env, Key(f)), Keep(row), FreshDecision(env, f, selected))
  {
    KeptAgrees(env, files, row, f, hash, selected);
    assert selected.Some? ==> selected.value.tmdbId.None?;
    hide ValidEntry, ParsedEntry, WithAnime, WithOverride, PlaybackUrl, Reusable, FreshDecision, EntryWithIdentity, Agrees;
  }

  // ---------- Complete identities ----------

  predicate Complete(k: Known) {
    k.tmdbId.Some? && k.year.Some? && k.poster.Some? && k.category.Some?
  }

  lemma PathStartsWithCategory(e: Entry)
    requires ValidEntry(e)
    ensures CategoryName(e.category) + "/" <= EntryPath(e)
  {
    var parts := LibraryEntryRelativePath(e);
    assert parts[0] == CategoryName(e.category);
    assert EntryPath(e) == parts[0] + "/" + JoinPath(parts[1..]);
  }

  lemma PrefixStart(prefix: string, path: Path)
    requires Excludes(prefix, path) && path != "" && path[0] != '/'
    ensures prefix != "" && prefix[0] == path[0]
  {
    var slashed := prefix + "/";
    assert slashed <= path ==> slashed[0] == path[0];
    assert prefix == "" ==> slashed == "/";
  }

  lemma ExclusionsNameTheCategory(env: Env, e: Entry)
    requires ValidEntry(e)
    ensures forall prefix :: prefix in Exclusions(env, e) ==> prefix != "" && prefix[0] == CategoryName(e.category)[0]
  {
    hide LibraryEntryRelativePath, ValidEntry, JoinPath, EntryPath;
    PathStartsWithCategory(e);
    var start, path := CategoryName(e.category), EntryPath(e);
    assert path[0] == start[0] != '/';
    forall prefix | prefix in Exclusions(env, e) ensures prefix != "" && prefix[0] == start[0] {
      PrefixStart(prefix, path);
    }
  }

  /** No prefix excludes entries of two categories. */
  lemma ExclusionsAreOfOneCategory(env: Env, e: Entry, other: Entry)
    requires ValidEntry(e) && ValidEntry(other) && e.category != other.category
    ensures Exclusions(env, e) !! Exclusions(env, other)
  {
    hide LibraryEntryRelativePath, ValidEntry, EntryPath, Exclusions;
    ExclusionsNameTheCategory(env, e);
    ExclusionsNameTheCategory(env, other);
  }

  /** Against a complete identity only an override can tell reuse from reprocessing, for every accepted row: kept,
      excluded or refused. */
  lemma CompleteReuseAgrees(env: Env, files: Files, row: Synced, f: TorBoxFile, hash: Option<string>, k: Known)
    requires Reusable(env, files, row, f, hash, Some(k)) && Complete(k) && Faithful(env, row)
    ensures var url := PlaybackUrl(env, Key(f));
            var e := EntryOf(row, url);
            Agrees(row, url, ReuseDecision(env, row, url), FreshDecision(env, f, Some(k)))
            <==> ValidEntry(e) ==> WithOverride(env, e) == e
  {
    FreshOfKnown(env, f, Some(k), k);
    IdentifiedEntry(env, files, row, f, hash, k);
    assert EnrichedIdentity(env, k) == k;
    hide *;
    SettledAgrees(env, row, PlaybackUrl(env, Key(f)), k, ParsedEntry(env, f).title);
  }

  lemma SettledAgrees(env: Env, row: Synced, url: string, k: Known, title: string)
    requires row.tmdbId == k.tmdbId && row.poster == k.poster
    ensures var e := EntryOf(row, url);
            Agrees(row, url, ReuseDecision(env, row, url), Settled(env, e, e, Some(k), title))
            <==> ValidEntry(e) ==> WithOverride(env, e) == e
  {
    var e := EntryOf(row, url);
    if ValidEntry(e) && WithOverride(env, e) != e && ValidEntry(WithOverride(env, e)) {
      ExclusionsAreOfOneCategory(env, e, WithOverride(env, e));
    }
    hide ValidEntry, Exclusions, SourcePrefix, CanApplyTarget;
  }
}
