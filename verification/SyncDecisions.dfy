/** What the sync decides for one provider file: reuse its row, print a fresh path, or skip it. */
module SyncDecisions {
  import opened Common
  import opened IdentityInputs
  import opened LibraryFiles
  import opened LibraryPaths
  import opened MediaIdentity
  import opened SqlLike
  import opened TorBoxFiles

  // ---------- Data ----------

  datatype SourceFileKey = SourceFileKey(kind: string, itemId: string, fileId: string)

  function Key(f: TorBoxFile): SourceFileKey {
    SourceFileKey(f.kind, f.itemId, f.fileId)
  }

  /** A generated file as the database remembers it, or as the run produced it. */
  datatype Synced = Synced(
    path: Path, entryId: string, category: Category, title: string, year: Option<int>, season: Option<int>,
    episode: Option<int>, file: TorBoxFile, infoHash: Option<string>, contentHash: string, tmdbId: Option<string>,
    poster: Option<string>, sourceTitle: string, authority: Authority, confidence: Option<int>,
    resolverVersion: Option<string>, fingerprint: Option<string>, reused: bool)

  datatype Status = Resolved | NoMatch | ProviderError
  datatype Resolution = Resolution(known: Known, status: Status)

  datatype Provider = Provider(
    resolve: (string, Option<int>, Category) -> Resolution,
    metadata: Option<(string, ProviderKind) -> Option<Known>>)

  datatype Override = Override(sourceCategory: Category, targetCategory: Category)

  /** What the parser reads off a file name. */
  datatype Parsed = Parsed(
    category: Category, title: string, year: Option<int>, season: Option<int>, episode: Option<int>)

  /** Everything that a run is given.  Hashing, name parsing, folding and the provider's answers are functions. */
  datatype Env = Env(
    entryId: SourceFileKey -> string,
    directUrl: SourceFileKey -> string,
    resolverUrl: Option<string -> string>,
    contentHash: string -> string,
    parse: (string, string) -> Parsed,
    isBlurayStream: string -> bool,
    labels: Labels,
    provider: Option<Provider>,
    isAnime: Option<(string, Option<int>) -> bool>,
    overrides: map<string, Override>,
    excluded: set<string>,
    torrentHashes: map<string, string>,
    byTorrentId: map<string, Known>,
    byInfoHash: map<string, Known>,
    byAlias: map<(string, string), Known>,
    casefold: string -> string,
    normalizeTitle: string -> string,
    reusable: map<SourceFileKey, Synced>,
    fingerprint: string,
    unreadable: set<Path>)            // existing files whose reads fail throughout the run

  datatype Diagnostic = NoConfidentMatch(title: string) | LookupFailed(title: string)

  datatype Decision =
    | Raise(error: Error)
    | Skip(diagnostics: set<Diagnostic>, observed: set<string>)
    | Keep(row: Synced)
    | Print(entry: Entry, known: Option<Known>, sourceTitle: string, diagnostics: set<Diagnostic>)

  // ---------- Small pieces ----------

  function PlaybackUrl(env: Env, key: SourceFileKey): string {
    match env.resolverUrl
    case None => env.directUrl(key)
    case Some(url) => url(env.entryId(key))
  }

  /** The bytes of a playback file. */
  function Content(url: string): string {
    url + "\n"
  }

  /** The first value unless it is absent or empty. */
  function OrElse(a: Option<string>, b: Option<string>): Option<string> {
    if a.Some? && a.value != "" then a else b
  }

  function InfoHash(env: Env, discovered: map<string, string>, f: TorBoxFile): Option<string> {
    OrElse(Lookup(discovered, f.itemId), Lookup(env.torrentHashes, f.itemId))
  }

  function MakeEntry(e: Entry): Result<Entry, Error> {
    if ValidEntry(e) then Ok(e) else Raised(InvalidEntry)
  }

  function LibraryName(env: Env, f: TorBoxFile): string {
    if env.isBlurayStream(f.path) && f.folderName != "" then f.folderName else f.fileName
  }

  function ParsedEntry(env: Env, f: TorBoxFile): Entry {
    var p := env.parse(LibraryName(env, f), f.folderName);
    Entry(p.category, p.title, p.year, p.season, p.episode, PlaybackUrl(env, Key(f)))
  }

  function JoinPath(parts: seq<string>): Path {
    if parts == [] then "" else if |parts| == 1 then parts[0] else parts[0] + "/" + JoinPath(parts[1..])
  }

  function EntryPath(e: Entry): Path
    requires ValidEntry(e)
  {
    JoinPath(LibraryEntryRelativePath(e))
  }

  /** The excluded prefixes that the canonical path of an entry lies under. */
  function Exclusions(env: Env, e: Entry): set<string>
    requires ValidEntry(e)
  {
    set prefix | prefix in env.excluded && Excludes(prefix, EntryPath(e))
  }

  // ---------- Identities ----------

  function SelectedIdentity(env: Env, itemId: string, hash: Option<string>): Option<Known> {
    if itemId in env.byTorrentId then Some(env.byTorrentId[itemId])
    else if hash.None? then None
    else Lookup(env.byInfoHash, env.casefold(hash.value))
  }

  function AliasIdentity(env: Env, e: Entry): Option<Known> {
    Lookup(env.byAlias, (if e.category.Movies? then "movie" else "series", env.normalizeTitle(e.title)))
  }

  /** Year and poster are filled in from the provider when either is missing. */
  function EnrichedIdentity(env: Env, k: Known): Known {
    if env.provider.None? || k.tmdbId.None? || (k.year.Some? && k.poster.Some?) || env.provider.value.metadata.None?
    then k
    else
      var metadata := env.provider.value.metadata.value(k.tmdbId.value, k.mediaType);
      if metadata.None? then k
      else k.(year := if k.year.Some? then k.year else metadata.value.year,
              poster := OrElse(k.poster, metadata.value.poster))
  }

  function CategoryFromIdentity(e: Entry, mediaType: ProviderKind): Category {
    if e.category.Anime? then Anime
    else if mediaType.TvKind? && e.season.Some? then Shows
    else e.category
  }

  function EntryWithIdentity(e: Entry, k: Known): Entry {
    e.(category := if k.category.Some? then k.category.value else CategoryFromIdentity(e, k.mediaType),
       title := k.title, year := k.year)
  }

  /** More than one character is left after stripping. */
  predicate LongerThanOne(title: string) {
    exists i, j :: 0 <= i < j < |title| && !IsSpace(title[i]) && !IsSpace(title[j])
  }

  function WithAnime(env: Env, e: Entry): Entry {
    if env.isAnime.None? || e.category.Anime? || !(e.year.Some? || LongerThanOne(e.title)) then e
    else if env.isAnime.value(e.title, e.year) then e.(category := Anime)
    else e
  }

  function SourcePrefix(e: Entry): string
    requires ValidEntry(e)
  {
    LibraryEntryRelativePath(e)[0] + "/" + LibraryEntryRelativePath(e)[1]
  }

  predicate CanApplyTarget(e: Entry, target: Category) {
    var isEpisode := e.season.Some? || e.episode.Some?;
    match target
    case Movies => !isEpisode
    case Shows => isEpisode
    case Anime => true
  }

  function WithOverride(env: Env, e: Entry): Entry
    requires ValidEntry(e)
  {
    var o := Lookup(env.overrides, SourcePrefix(e));
    if o.None? || o.value.sourceCategory != e.category || o.value.targetCategory == e.category
       || !CanApplyTarget(e, o.value.targetCategory)
    then e
    else e.(category := o.value.targetCategory)
  }

  /** The identity to start from; one without an external id is retried. */
  function KnownIdentity(env: Env, e: Entry, selected: Option<Known>): Option<Known> {
    var k := if selected.Some? then selected else AliasIdentity(env, e);
    if k.Some? && k.value.tmdbId.None? then None else k
  }

  function ResolveEntry(env: Env, parsed: Entry, selected: Option<Known>): Result<(Entry, Option<Resolution>), Error>
    requires ValidEntry(parsed)
  {
    var k := KnownIdentity(env, parsed, selected);
    if k.Some? then
      var known := EnrichedIdentity(env, k.value);
      var e :- MakeEntry(EntryWithIdentity(parsed, known));
      var classified :- MakeEntry(if known.category.None? then WithAnime(env, e) else e);
      var overridden :- MakeEntry(WithOverride(env, classified));
      Ok((overridden, Some(Resolution(known, Resolved))))
    else
      var classified :- MakeEntry(WithAnime(env, parsed));
      var overridden :- MakeEntry(WithOverride(env, classified));
      if env.provider.None? then Ok((overridden, None))
      else
        var r := env.provider.value.resolve(overridden.title, overridden.year, overridden.category);
        var e :- MakeEntry(EntryWithIdentity(overridden, r.known));
        Ok((e, Some(r)))
  }

  lemma ResolvedEntryIsValid(env: Env, parsed: Entry, selected: Option<Known>)
    requires ValidEntry(parsed)
    ensures var r := ResolveEntry(env, parsed, selected);
            r.Ok? ==>
              && ValidEntry(r.value.0) && r.value.0.url == parsed.url
              && r.value.0.season == parsed.season && r.value.0.episode == parsed.episode
  {
    hide ValidEntry, SourcePrefix;
  }

  // ---------- Reuse ----------

  predicate SameSourceFile(row: Synced, f: TorBoxFile, hash: Option<string>) {
    row.file == f && row.infoHash == hash
  }

  predicate SameIdentity(row: Synced, current: Option<Known>) {
    match current
    case None => row.tmdbId.None?
    case Some(k) =>
      && row.tmdbId == k.tmdbId && row.title == k.title && row.year == k.year && row.poster == k.poster
      && (k.category.None? || k.category == Some(row.category))
  }

  /** The row can stand for the file: nothing that processing depends on has changed, and the disk agrees. */
  predicate Reusable(env: Env, files: Files, row: Synced, f: TorBoxFile, hash: Option<string>, selected: Option<Known>) {
    var url := PlaybackUrl(env, Key(f));
    && row.entryId == env.entryId(Key(f))
    && row.fingerprint == Some(env.fingerprint)
    && SameSourceFile(row, f, hash)
    && SameIdentity(row, selected)
    && row.contentHash == env.contentHash(url)
    && Lookup(files, row.path) == Some(Content(url)) && row.path !in env.unreadable
  }

  function EntryOf(row: Synced, url: string): Entry {
    Entry(row.category, row.title, row.year, row.season, row.episode, url)
  }

  // ---------- Decisions ----------

  function ReuseDecision(env: Env, row: Synced, url: string): Decision {
    var e := EntryOf(row, url);
    if !ValidEntry(e) then Raise(InvalidEntry)
    else if Exclusions(env, e) != {} then Skip({}, Exclusions(env, e))
    else Keep(row)
  }

  function FreshDecision(env: Env, f: TorBoxFile, selected: Option<Known>): Decision {
    var parsed := ParsedEntry(env, f);
    if !ValidEntry(parsed) then Raise(InvalidEntry)
    else
      match ResolveEntry(env, parsed, selected)
      case Raised(e) => Raise(e)
      case Ok((e, resolution)) =>
        if resolution.Some? && resolution.value.status.ProviderError? then
          Skip({LookupFailed(parsed.title)}, {})
        else
          var diagnostics :=
            if resolution.Some? && resolution.value.status.NoMatch? then {NoConfidentMatch(parsed.title)} else {};
          if Exclusions(env, e) != {} then Skip(diagnostics, Exclusions(env, e))
          else Print(e, if resolution.Some? then Some(resolution.value.known) else None, parsed.title, diagnostics)
  }

  predicate Reuses(env: Env, files: Files, f: TorBoxFile, discovered: map<string, string>) {
    var hash := InfoHash(env, discovered, f);
    && Key(f) in env.reusable
    && Reusable(env, files, env.reusable[Key(f)], f, hash, SelectedIdentity(env, f.itemId, hash))
  }

  function Decide(env: Env, files: Files, f: TorBoxFile, discovered: map<string, string>): Decision {
    if Reuses(env, files, f, discovered) then ReuseDecision(env, env.reusable[Key(f)], PlaybackUrl(env, Key(f)))
    else FreshDecision(env, f, SelectedIdentity(env, f.itemId, InfoHash(env, discovered, f)))
  }

  /** Season and episode of the row are those of its own file name, which parses. */
  predicate Faithful(env: Env, row: Synced) {
    var parsed := ParsedEntry(env, row.file);
    ValidEntry(parsed) && row.season == parsed.season && row.episode == parsed.episode
  }
}
