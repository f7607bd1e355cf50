/** What is printed for a file and recorded of it, told from its name, the identities given and the answers received. */
module FileResolution {
  import opened Common
  import opened IdentityInputs
  import opened LibraryFiles
  import opened LibraryPaths
  import opened StrmSync
  import opened SyncDecisions
  import opened TorBoxFiles
  import MediaIdentity

  // ---------- Where title and identity come from ----------

  /** The identity that is selected for the file, for its item or else for its hash, or that its parsed title is an alias
      of; without a TMDB id it does not count. */
  ghost predicate StartsFrom(env: Env, f: TorBoxFile, hash: Option<string>, parsed: Parsed, k: Known) {
    && k.tmdbId.Some?
    && if f.itemId in env.byTorrentId then k == env.byTorrentId[f.itemId]
       else if hash.Some? && env.casefold(hash.value) in env.byInfoHash then k == env.byInfoHash[env.casefold(hash.value)]
       else
         var alias := (if parsed.category == Movies then "movie" else "series", env.normalizeTitle(parsed.title));
         alias in env.byAlias && k == env.byAlias[alias]
  }

  /** Only year and poster are filled in, each only if it is missing, from what the provider knows of the id. */
  predicate FilledIn(env: Env, k: Known, full: Known) {
    && full == k.(year := full.year, poster := full.poster)
    && (k.year.Some? ==> full.year == k.year)
    && (k.poster.Some? && k.poster.value != "" ==> full.poster == k.poster)
    && if env.provider.Some? && env.provider.value.metadata.Some? && k.tmdbId.Some?
          && env.provider.value.metadata.value(k.tmdbId.value, k.mediaType).Some?
       then
         var answer := env.provider.value.metadata.value(k.tmdbId.value, k.mediaType).value;
         && (k.year.None? ==> full.year == answer.year)
         && (k.poster.None? ==> full.poster == answer.poster)
         && (k.poster == Some("") ==> full.poster == if k.year.Some? then k.poster else answer.poster)
       else full == k
  }

  // ---------- Where the category comes from ----------

  /** A kind that is no anime yet becomes anime if there is a classifier, enough to ask it about, and it says so. */
  ghost predicate Classified(env: Env, e: Entry, c: Category) {
    var asked := e.year.Some? || exists i, j :: 0 <= i < j < |e.title| && !IsSpace(e.title[i]) && !IsSpace(e.title[j]);
    c == if e.category != Anime && env.isAnime.Some? && asked && env.isAnime.value(e.title, e.year) then Anime else e.category
  }

  /** An override of the entry's folder has the last word, if it is for the entry's category, and its target takes films or
      episodes as the entry is one or the other. */
  predicate Overridden(env: Env, e: Entry, c: Category)
    requires ValidEntry(e)
  {
    var folder := Folder(e)[0] + "/" + Folder(e)[1];
    var isEpisode := e.season.Some? || e.episode.Some?;
    if folder in env.overrides && env.overrides[folder].sourceCategory == e.category
       && (env.overrides[folder].targetCategory == Movies ==> !isEpisode)
       && (env.overrides[folder].targetCategory == Shows ==> isEpisode)
    then c == env.overrides[folder].targetCategory
    else c == e.category
  }

  /** The category of an identity, or else the one that its sort of media makes of the entry's. */
  predicate CategoryBy(k: Known, category: Category, season: Option<int>, c: Category) {
    c == if k.category.Some? then k.category.value
         else if category == Anime then Anime
         else if k.mediaType == MediaIdentity.TvKind && season.Some? then Shows
         else category
  }

  /** With an identity: its category, classified only if it has none, and overridden. */
  ghost predicate CategoryWithIdentity(env: Env, parsed: Parsed, k: Known, e: Entry) {
    exists start, classified ::
      && CategoryBy(k, parsed.category, parsed.season, start)
      && (if k.category.Some? then classified == start else Classified(env, e.(category := start), classified))
      && ValidEntry(e.(category := classified)) && Overridden(env, e.(category := classified), e.category)
  }

  /** Without: the parsed one, classified and overridden; then the provider, if there is one, is asked about that. */
  ghost predicate CategoryWithoutIdentity(env: Env, name: Entry, classified: Category, asked: Category) {
    && Classified(env, name, classified)
    && ValidEntry(name.(category := classified)) && Overridden(env, name.(category := classified), asked)
  }

  // ---------- What is printed ----------

  lemma OverrideMeaning(env: Env, e: Entry)
    requires ValidEntry(e)
    ensures WithOverride(env, e) == e.(category := WithOverride(env, e).category)
    ensures forall c :: Overridden(env, e, c) <==> c == WithOverride(env, e).category
  {
    hide ValidEntry, FileStem, TitleYear, CleanTitle, SeasonFolder;
  }

  lemma ClassifierMeaning(env: Env, e: Entry)
    ensures WithAnime(env, e) == e.(category := WithAnime(env, e).category)
    ensures Classified(env, e, WithAnime(env, e).category)
  {
  }

  lemma EnrichmentMeaning(env: Env, k: Known)
    ensures FilledIn(env, k, EnrichedIdentity(env, k))
  {
  }

  lemma StartMeaning(env: Env, f: TorBoxFile, hash: Option<string>, parsed: Parsed, e: Entry)
    requires e.category == parsed.category && e.title == parsed.title
    ensures var start := KnownIdentity(env, e, SelectedIdentity(env, f.itemId, hash));
            && (forall k :: StartsFrom(env, f, hash, parsed, k) <==> start == Some(k))
            && ((forall k :: !StartsFrom(env, f, hash, parsed, k)) ==> start.None?)
  {
    var start := KnownIdentity(env, e, SelectedIdentity(env, f.itemId, hash));
    if start.Some? {
      assert StartsFrom(env, f, hash, parsed, start.value);
    }
  }

  /** The name that is parsed is the file's, but for a stream of a disc the folder's if it has one. */
  predicate ParsedAs(env: Env, f: TorBoxFile, parsed: Parsed) {
    parsed == env.parse(if env.isBlurayStream(f.path) && f.folderName != "" then f.folderName else f.fileName, f.folderName)
  }

  lemma ParsedMeaning(env: Env, f: TorBoxFile, parsed: Parsed)
    requires ParsedAs(env, f, parsed)
    ensures ParsedEntry(env, f) ==
            Entry(parsed.category, parsed.title, parsed.year, parsed.season, parsed.episode, PlaybackUrl(env, Key(f)))
  {
  }

  /** What is printed is what the parsed name resolves to. */
  lemma PrintedIsResolved(env: Env, f: TorBoxFile, selected: Option<Known>)
    ensures var d, parsed := FreshDecision(env, f, selected), ParsedEntry(env, f);
            d.Print? ==>
              && ValidEntry(parsed) && ResolveEntry(env, parsed, selected).Ok? && d.sourceTitle == parsed.title
              && var (e, r) := ResolveEntry(env, parsed, selected).value;
                 && d.entry == e && (r.Some? ==> !r.value.status.ProviderError?)
                 && d.known == (if r.Some? then Some(r.value.known) else None)
                 && d.diagnostics == (if r.Some? && r.value.status.NoMatch? then {NoConfidentMatch(parsed.title)} else {})
  {
    hide ValidEntry, ResolveEntry, Exclusions, ParsedEntry;
  }

  lemma ResolvedWithIdentity(env: Env, e: Entry, selected: Option<Known>, k: Known)
    requires ValidEntry(e) && KnownIdentity(env, e, selected) == Some(k)
    ensures var r := ResolveEntry(env, e, selected);
            r.Ok? ==>
              var start := EntryWithIdentity(e, EnrichedIdentity(env, k));
              var classified := if EnrichedIdentity(env, k).category.None? then WithAnime(env, start) else start;
              && ValidEntry(classified) && r.value.0 == WithOverride(env, classified)
              && r.value.1 == Some(Resolution(EnrichedIdentity(env, k), Resolved))
  {
    hide EnrichedIdentity, KnownIdentity, EntryWithIdentity, WithOverride, WithAnime, ValidEntry;
  }

  lemma CategoryOfIdentity(env: Env, parsed: Parsed, k: Known, e: Entry, full: Known)
    requires full == k.(year := full.year, poster := full.poster)
    requires e.category == parsed.category && e.season == parsed.season
    requires var start := EntryWithIdentity(e, full);
             ValidEntry(if full.category.None? then WithAnime(env, start) else start)
    ensures var start := EntryWithIdentity(e, full);
            var printed := WithOverride(env, if full.category.None? then WithAnime(env, start) else start);
            && CategoryWithIdentity(env, parsed, k, printed)
            && printed == e.(category := printed.category, title := k.title, year := full.year)
  {
    var start := EntryWithIdentity(e, full);
    var classified := if full.category.None? then WithAnime(env, start) else start;
    var printed := WithOverride(env, classified);
    ClassifierMeaning(env, start);
    OverrideMeaning(env, classified);
    assert CategoryBy(k, parsed.category, parsed.season, start.category);
    assert start == e.(category := start.category, title := k.title, year := full.year);
    hide ValidEntry, WithOverride, WithAnime, Classified, Overridden, EntryWithIdentity, CategoryBy;
    assert printed.(category := start.category) == start && printed.(category := classified.category) == classified;
  }

  /** The entry printed for a file that has an identity to start from. */
  lemma PrintedWithIdentity(env: Env, f: TorBoxFile, hash: Option<string>, parsed: Parsed, k: Known)
    requires ParsedAs(env, f, parsed) && StartsFrom(env, f, hash, parsed, k)
    ensures var d := FreshDecision(env, f, SelectedIdentity(env, f.itemId, hash));
            d.Print? ==>
              && d.known.Some? && FilledIn(env, k, d.known.value) && d.diagnostics == {} && d.sourceTitle == parsed.title
              && d.entry.title == k.title && d.entry.year == d.known.value.year
              && d.entry.season == parsed.season && d.entry.episode == parsed.episode
              && d.entry.url == PlaybackUrl(env, Key(f))
              && CategoryWithIdentity(env, parsed, k, d.entry)
  {
    var e, selected := ParsedEntry(env, f), SelectedIdentity(env, f.itemId, hash);
    ParsedMeaning(env, f, parsed);
    StartMeaning(env, f, hash, parsed, e);
    EnrichmentMeaning(env, k);
    PrintedIsResolved(env, f, selected);
    var d := FreshDecision(env, f, selected);
    if d.Print? {
      ResolvedWithIdentity(env, e, selected, k);
      hide FreshDecision, ResolveEntry, EnrichedIdentity, SelectedIdentity, KnownIdentity, StartsFrom, ParsedEntry, ValidEntry,
        WithOverride, WithAnime, PlaybackUrl, ParsedAs, CategoryWithIdentity, EntryWithIdentity;
      CategoryOfIdentity(env, parsed, k, e, EnrichedIdentity(env, k));
    }
  }

  /** The answer of the provider, if there is one, about what the name says. */
  ghost predicate AsAnswered(env: Env, parsed: Parsed, asked: Category, e: Entry, known: Option<Known>, diagnostics: set<Diagnostic>) {
    match env.provider
    case None =>
      && known.None? && diagnostics == {}
      && e.title == parsed.title && e.year == parsed.year && e.category == asked
    case Some(provider) =>
      var answer := provider.resolve(parsed.title, parsed.year, asked);
      && known == Some(answer.known) && !answer.status.ProviderError?
      && diagnostics == (if answer.status.NoMatch? then {NoConfidentMatch(parsed.title)} else {})
      && e.title == answer.known.title && e.year == answer.known.year
      && CategoryBy(answer.known, asked, parsed.season, e.category)
  }

  lemma ResolvedWithoutIdentity(env: Env, e: Entry, selected: Option<Known>)
    requires ValidEntry(e) && KnownIdentity(env, e, selected).None?
    ensures var r, classified := ResolveEntry(env, e, selected), WithAnime(env, e);
            r.Ok? ==>
              && ValidEntry(classified)
              && var asked := WithOverride(env, classified);
                 match env.provider
                 case None => r.value == (asked, None)
                 case Some(provider) =>
                   var answer := provider.resolve(asked.title, asked.year, asked.category);
                   r.value == (EntryWithIdentity(asked, answer.known), Some(answer))
  {
    hide KnownIdentity, EntryWithIdentity, WithOverride, WithAnime, ValidEntry;
  }

  /** The entry printed for a file that has none: as the provider answers, if there is one, about what its name says. */
  lemma PrintedWithoutIdentity(env: Env, f: TorBoxFile, hash: Option<string>, parsed: Parsed)
    requires ParsedAs(env, f, parsed) && forall k :: !StartsFrom(env, f, hash, parsed, k)
    ensures var d, name := FreshDecision(env, f, SelectedIdentity(env, f.itemId, hash)), ParsedEntry(env, f);
            d.Print? ==>
              && d.entry.season == parsed.season && d.entry.episode == parsed.episode && d.sourceTitle == parsed.title
              && d.entry.url == PlaybackUrl(env, Key(f))
              && exists classified, asked ::
                   && CategoryWithoutIdentity(env, name, classified, asked)
                   && AsAnswered(env, parsed, asked, d.entry, d.known, d.diagnostics)
  {
    var e, selected := ParsedEntry(env, f), SelectedIdentity(env, f.itemId, hash);
    ParsedMeaning(env, f, parsed);
    StartMeaning(env, f, hash, parsed, e);
    PrintedIsResolved(env, f, selected);
    var d := FreshDecision(env, f, selected);
    if d.Print? {
      ResolvedWithoutIdentity(env, e, selected);
      hide FreshDecision, ResolveEntry, SelectedIdentity, KnownIdentity, StartsFrom, ParsedEntry, ValidEntry, WithOverride,
        WithAnime, PlaybackUrl, Classified, Overridden, ParsedAs;
      var classified := WithAnime(env, e);
      ClassifierMeaning(env, e);
      OverrideMeaning(env, classified);
      assert e.(category := classified.category) == classified;
      assert CategoryWithoutIdentity(env, e, classified.category, WithOverride(env, classified).category);
      assert AsAnswered(env, parsed, WithOverride(env, classified).category, d.entry, d.known, d.diagnostics);
    }
  }

  // ---------- What is recorded ----------

  /** The text of a playback file is the file's own download, or with a resolver the resolver's address for its id. */
  predicate LeadsTo(env: Env, f: TorBoxFile, text: string) {
    var key := SourceFileKey(f.kind, f.itemId, f.fileId);
    match env.resolverUrl
    case None => text == env.directUrl(key) + "\n"
    case Some(url) => text == url(env.entryId(key)) + "\n"
  }

  /** The hash that the listing shows for the torrent, or else the one that was selected with it. */
  predicate HashFound(env: Env, b: Batch, f: TorBoxFile, hash: Option<string>) {
    if b.kind == "torrents" && f.itemId in b.hashes && b.hashes[f.itemId] != "" then hash == Some(b.hashes[f.itemId])
    else if f.itemId in env.torrentHashes then hash == Some(env.torrentHashes[f.itemId])
    else hash.None?
  }

  lemma HashMeaning(env: Env, b: Batch, f: TorBoxFile)
    ensures HashFound(env, b, f, InfoHash(env, Discovered(b), f))
  {
  }

  lemma TextMeaning(env: Env, f: TorBoxFile)
    ensures LeadsTo(env, f, Content(PlaybackUrl(env, Key(f))))
  {
  }

  /** What a step that prints leaves: the text that leads to the file, and a row that says of the file what was resolved. */
  lemma PrintedIsRecorded(env: Env, b: Batch, p: Progress, f: TorBoxFile)
    ensures var d, r := Decide(env, p.files, f, Discovered(b)), StepFile(env, Discovered(b), p, f);
            d.Print? && r.Ok? ==>
              && r.value.tally.synced != [] && Front(r.value.tally.synced) == p.tally.synced
              && var x := Last(r.value.tally.synced);
                 && x.file == f && x.entryId == env.entryId(SourceFileKey(f.kind, f.itemId, f.fileId))
                 && x.path in r.value.files && LeadsTo(env, f, r.value.files[x.path])
                 && r.value.files[x.path] == d.entry.url + "\n" && x.contentHash == env.contentHash(d.entry.url)
                 && HashFound(env, b, f, x.infoHash) && x.fingerprint == Some(env.fingerprint) && !x.reused
                 && x.category == d.entry.category && x.title == d.entry.title && x.year == d.entry.year
                 && x.season == d.entry.season && x.episode == d.entry.episode
                 && (d.sourceTitle != "" ==> x.sourceTitle == d.sourceTitle)
                 && (d.known.Some? ==>
                       && x.tmdbId == d.known.value.tmdbId && x.poster == d.known.value.poster
                       && x.authority == d.known.value.authority && x.confidence == d.known.value.confidence
                       && x.resolverVersion == Some(d.known.value.resolverVersion))
                 && (d.known.None? ==>
                       x.tmdbId.None? && x.poster.None? && x.authority.Fallback? && x.confidence.None? && x.resolverVersion.None?)
                 && r.value.tally.diagnostics == p.tally.diagnostics + d.diagnostics
                 && r.value.tally.reused == p.tally.reused && r.value.tally.skipped == p.tally.skipped
  {
    PrintedEntry(env, p.files, f, Discovered(b));
    HashMeaning(env, b, f);
    TextMeaning(env, f);
    hide Decide, TargetPath, ValidEntry, InfoHash, PlaybackUrl, LeadsTo, HashFound;
    var d, r := Decide(env, p.files, f, Discovered(b)), StepFile(env, Discovered(b), p, f);
    if d.Print? && r.Ok? {
      var x := SyncedFile(env, TargetPath(env, p.claimed, d.entry, f), d.entry, f, InfoHash(env, Discovered(b), f), d.known,
                          d.sourceTitle);
      assert r.value.tally.synced == p.tally.synced + [x];
    }
  }
}
