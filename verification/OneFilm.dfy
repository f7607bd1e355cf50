/** A library of one film: the inputs on which reuse and reprocessing part. */
module OneFilm {
  import opened Common
  import opened IdentityInputs
  import opened LibraryFiles
  import opened LibraryPaths
  import opened ReuseAgreement
  import opened SyncDecisions
  import opened TorBoxFiles
  import MediaIdentity

  const FILM: Path := "movies/X/X.strm"
  const FILE := TorBoxFile("torrents", "1", "1", "", "X.mkv", "X.mkv", "video/x-matroska", Some(1))
  const DISK: Files := map[FILM := "u\n"]

  type Classifier = (string, Option<int>) -> bool

  /** The row of the film, as its identity, if any, has it. */
  function FilmRow(h: string -> string, known: Option<Known>, fingerprint: string): Synced {
    Synced(FILM, "id", Movies, "X", if known.Some? then known.value.year else None, None, None, FILE, None, h("u"),
           TmdbOf(known), PosterOf(known), "X", MediaIdentity.Fallback, None, None, Some(fingerprint), false)
  }

  /** An environment in which the file names the film, `known` is selected for its torrent, and one row is offered. */
  function FilmEnv(
    h: string -> string, known: Option<Known>, aliases: map<(string, string), Known>, provider: Option<Provider>,
    isAnime: Option<Classifier>, overrides: map<string, Override>, row: Synced): Env
  {
    Env(k => "id", k => "u", None, h, (name, folder) => Parsed(Movies, "X", None, None, None), path => false, name => [],
        provider, isAnime, overrides, {}, map[], if known.Some? then map["1" := known.value] else map[], map[], aliases,
        s => s, s => s, map[Key(FILE) := row], "v", {})
  }

  predicate NamesTheFilm(k: Known) {
    k.title == "X" && (k.category.None? || k.category == Some(Movies))
  }

  lemma FilmEntryIsValid(category: Category, year: Option<int>)
    requires !category.Shows?
    ensures ValidEntry(Entry(category, "X", year, None, None, "u"))
  {
    assert !IsSpace("X"[0]) && !IsSpace("u"[0]);
  }

  /** The row is accepted for its file and kept. */
  lemma FilmIsKept(
    h: string -> string, known: Option<Known>, aliases: map<(string, string), Known>, provider: Option<Provider>,
    isAnime: Option<Classifier>, overrides: map<string, Override>)
    requires known.Some? ==> NamesTheFilm(known.value)
    ensures var row := FilmRow(h, known, "v");
            var env := FilmEnv(h, known, aliases, provider, isAnime, overrides, row);
            && PlaybackUrl(env, Key(FILE)) == "u" && ParsedEntry(env, FILE) == Entry(Movies, "X", None, None, None, "u")
            && EntryOf(row, "u") == Entry(Movies, "X", row.year, None, None, "u") && ValidEntry(EntryOf(row, "u"))
            && Reusable(env, DISK, row, FILE, None, known) && Faithful(env, row)
            && ReuseDecision(env, row, "u") == Keep(row)
            && Reuses(env, DISK, FILE, map[])
  {
    var row := FilmRow(h, known, "v");
    var env := FilmEnv(h, known, aliases, provider, isAnime, overrides, row);
    FilmEntryIsValid(Movies, row.year);
    FilmEntryIsValid(Movies, None);
    assert DISK[FILM] == Content("u");
    hide ValidEntry;
    assert Exclusions(env, EntryOf(row, "u")) == {};
  }

  /** The film is kept, and reprocessing its file would come to something else. */
  ghost predicate Parts(env: Env, row: Synced, selected: Option<Known>) {
    && Reuses(env, DISK, FILE, map[]) && Faithful(env, row) && ReuseDecision(env, row, "u") == Keep(row)
    && !Agrees(row, "u", Keep(row), FreshDecision(env, FILE, selected))
  }

  const UNMATCHED :=
    Known(None, "X", None, MediaIdentity.MovieKind, None, MediaIdentity.Fallback, None, "v", Some(Movies))
  const MATCHED :=
    Known(Some("7"), "X", Some(2000), MediaIdentity.MovieKind, Some("p"), MediaIdentity.Manual, Some(100), "v", Some(Movies))

  /** A selected identity without a TMDB id, and a provider that finds one by now: reuse leaves the lookup out. */
  lemma UnmatchedFilmParts(h: string -> string)
    ensures var provider := Provider((title, year, category) => Resolution(MATCHED, Resolved), None);
            var row := FilmRow(h, Some(UNMATCHED), "v");
            Parts(FilmEnv(h, Some(UNMATCHED), map[], Some(provider), None, map[], row), row, Some(UNMATCHED))
  {
    var provider := Provider((title, year, category) => Resolution(MATCHED, Resolved), None);
    var row := FilmRow(h, Some(UNMATCHED), "v");
    var env := FilmEnv(h, Some(UNMATCHED), map[], Some(provider), None, map[], row);
    FilmIsKept(h, Some(UNMATCHED), map[], Some(provider), None, map[]);
    UnidentifiedNeverAgrees(env, DISK, row, FILE, None, Some(UNMATCHED), provider);
  }

  /** No selected identity, and an alias that has one. */
  lemma AliasedFilmParts(h: string -> string)
    ensures var row := FilmRow(h, None, "v");
            Parts(FilmEnv(h, None, map[("movie", "X") := MATCHED], None, None, map[], row), row, None)
  {
    var row := FilmRow(h, None, "v");
    var env := FilmEnv(h, None, map[("movie", "X") := MATCHED], None, None, map[], row);
    FilmIsKept(h, None, map[("movie", "X") := MATCHED], None, None, map[]);
    assert KnownIdentity(env, ParsedEntry(env, FILE), None) == Some(MATCHED);
    KeptAgainstAlias(env, DISK, row, FILE, None, MATCHED);
  }

  /** No identity at all, and a provider that finds one by now. */
  lemma UnselectedFilmParts(h: string -> string)
    ensures var provider := Provider((title, year, category) => Resolution(MATCHED, Resolved), None);
            var row := FilmRow(h, None, "v");
            Parts(FilmEnv(h, None, map[], Some(provider), None, map[], row), row, None)
  {
    var provider := Provider((title, year, category) => Resolution(MATCHED, Resolved), None);
    var row := FilmRow(h, None, "v");
    var env := FilmEnv(h, None, map[], Some(provider), None, map[], row);
    FilmIsKept(h, None, map[], Some(provider), None, map[]);
    UnidentifiedNeverAgrees(env, DISK, row, FILE, None, None, provider);
  }

  /** An identity that lacks only its category, and a classifier that takes the film for anime. */
  lemma UncategorisedFilmParts(h: string -> string)
    ensures var k := MATCHED.(category := None);
            var row := FilmRow(h, Some(k), "v");
            Parts(FilmEnv(h, Some(k), map[], None, Some((title, year) => true), map[], row), row, Some(k))
  {
    var k := MATCHED.(category := None);
    var isAnime: Classifier := (title, year) => true;
    var row := FilmRow(h, Some(k), "v");
    var env := FilmEnv(h, Some(k), map[], None, Some(isAnime), map[], row);
    FilmIsKept(h, Some(k), map[], None, Some(isAnime), map[]);
    KeptWithIdentity(env, DISK, row, FILE, None, k);
    FilmEntryIsValid(Anime, Some(2000));
    var start := EntryWithIdentity(ParsedEntry(env, FILE), k);
    assert start == Entry(Movies, "X", Some(2000), None, None, "u");
    assert WithAnime(env, start) == start.(category := Anime);
    hide ValidEntry, SourcePrefix;
  }

  /** An identity that lacks only its year, and a provider that knows it. */
  lemma YearlessFilmParts(h: string -> string)
    ensures var k := MATCHED.(year := None);
            var provider :=
              Provider((title, year, category) => Resolution(MATCHED, Resolved), Some((id, kind) => Some(MATCHED)));
            var row := FilmRow(h, Some(k), "v");
            Parts(FilmEnv(h, Some(k), map[], Some(provider), None, map[], row), row, Some(k))
  {
    var k := MATCHED.(year := None);
    var provider := Provider((title, year, category) => Resolution(MATCHED, Resolved), Some((id, kind) => Some(MATCHED)));
    var row := FilmRow(h, Some(k), "v");
    var env := FilmEnv(h, Some(k), map[], Some(provider), None, map[], row);
    FilmIsKept(h, Some(k), map[], Some(provider), None, map[]);
    assert EnrichedIdentity(env, k) == MATCHED;
    hide ValidEntry, SourcePrefix;
    KeptWithIdentity(env, DISK, row, FILE, None, k);
  }

  /** A complete identity, and an override that moves its film to anime. */
  lemma MovedFilmParts(h: string -> string)
    ensures var e := Entry(Movies, "X", Some(2000), None, None, "u");
            var row := FilmRow(h, Some(MATCHED), "v");
            && ValidEntry(e)
            && Parts(FilmEnv(h, Some(MATCHED), map[], None, None, map[SourcePrefix(e) := Override(Movies, Anime)], row),
                     row, Some(MATCHED))
  {
    var e := Entry(Movies, "X", Some(2000), None, None, "u");
    FilmEntryIsValid(Movies, Some(2000));
    var overrides := map[SourcePrefix(e) := Override(Movies, Anime)];
    var row := FilmRow(h, Some(MATCHED), "v");
    var env := FilmEnv(h, Some(MATCHED), map[], None, None, overrides, row);
    FilmIsKept(h, Some(MATCHED), map[], None, None, overrides);
    hide ValidEntry, SourcePrefix;
    assert WithOverride(env, e) == e.(category := Anime);
    KeptWithIdentity(env, DISK, row, FILE, None, MATCHED);
  }
}
