/** A run of the library sync over the provider's files: who owns which path, and what is written. */
module StrmSync {
  import opened Common
  import opened IdentityInputs
  import opened LibraryFiles
  import opened LibraryPaths
  import opened SyncDecisions
  import opened TorBoxFiles
  import MediaIdentity

  // ---------- Paths ----------

  type Claims = map<Path, SourceFileKey>

  /** Nobody, or the source itself, has claimed the path. */
  predicate Free(claimed: Claims, path: Path, key: SourceFileKey) {
    path in claimed ==> claimed[path] == key
  }

  function SourceName(f: TorBoxFile): string {
    if f.folderName == "" then f.fileName
    else if f.fileName == "" then f.folderName
    else f.folderName + " " + f.fileName
  }

  function Prefix8(id: string): string {
    if |id| <= 8 then id else id[..8]
  }

  function Alternate(env: Env, e: Entry, f: TorBoxFile): Path
    requires ValidEntry(e)
  {
    JoinPath(AlternateVersionPath(LibraryEntryRelativePath(e), SourceName(f), env.labels, None))
  }

  function Suffixed(env: Env, e: Entry, f: TorBoxFile): Path
    requires ValidEntry(e)
  {
    JoinPath(AlternateVersionPath(LibraryEntryRelativePath(e), SourceName(f), env.labels, Some(Prefix8(env.entryId(Key(f))))))
  }

  /** The source keeps the path it has, or takes the canonical, the alternate or the suffixed one.
      The last is taken without looking. */
  function TargetPath(env: Env, claimed: Claims, e: Entry, f: TorBoxFile): Path
    requires ValidEntry(e)
  {
    if Key(f) in env.reusable && Free(claimed, env.reusable[Key(f)].path, Key(f)) then env.reusable[Key(f)].path
    else if Free(claimed, EntryPath(e), Key(f)) then EntryPath(e)
    else if Free(claimed, Alternate(env, e, f), Key(f)) then Alternate(env, e, f)
    else Suffixed(env, e, f)
  }

  /** All four paths belong to other sources. */
  predicate Clashes(env: Env, claimed: Claims, e: Entry, f: TorBoxFile)
    requires ValidEntry(e)
  {
    && (Key(f) in env.reusable ==> !Free(claimed, env.reusable[Key(f)].path, Key(f)))
    && !Free(claimed, EntryPath(e), Key(f))
    && !Free(claimed, Alternate(env, e, f), Key(f))
    && !Free(claimed, Suffixed(env, e, f), Key(f))
  }

  lemma TargetIsFree(env: Env, claimed: Claims, e: Entry, f: TorBoxFile)
    requires ValidEntry(e)
    ensures Free(claimed, TargetPath(env, claimed, e, f), Key(f)) <==> !Clashes(env, claimed, e, f)
  {
    hide EntryPath, Alternate, Suffixed, Free, ValidEntry;
  }

  /** Distinct sources have distinct paths. */
  ghost predicate UniquePaths(reusable: map<SourceFileKey, Synced>) {
    forall k, j :: k in reusable && j in reusable && reusable[k].path == reusable[j].path ==> k == j
  }

  function InitialClaims(reusable: map<SourceFileKey, Synced>): Claims
    requires UniquePaths(reusable)
  {
    map k | k in reusable :: reusable[k].path := k
  }

  // ---------- One file ----------

  datatype Tally = Tally(
    scanned: nat, skipped: nat, reused: nat, synced: seq<Synced>, manifest: seq<(string, string)>,
    diagnostics: set<Diagnostic>, observed: set<string>)

  datatype Progress = Progress(files: Files, claimed: Claims, tally: Tally)

  const NoTally := Tally(0, 0, 0, [], [], {}, {})

  function SyncedFile(
    env: Env, path: Path, e: Entry, f: TorBoxFile, hash: Option<string>, known: Option<Known>, sourceTitle: string): Synced
  {
    Synced(
      path, env.entryId(Key(f)), e.category, e.title, e.year, e.season, e.episode, f, hash, env.contentHash(e.url),
      if known.Some? then known.value.tmdbId else None, if known.Some? then known.value.poster else None,
      if sourceTitle != "" then sourceTitle else e.title,
      if known.Some? then known.value.authority else MediaIdentity.Fallback,
      if known.Some? then known.value.confidence else None,
      if known.Some? then Some(known.value.resolverVersion) else None,
      Some(env.fingerprint), false)
  }

  /** The counters of a file that is looked at; with a resolver its target is noted for the manifest. */
  function Scanned(env: Env, t: Tally, key: SourceFileKey): Tally {
    t.(scanned := t.scanned + 1,
       manifest := if env.resolverUrl.None? then t.manifest else t.manifest + [(env.entryId(key), env.directUrl(key))])
  }

  function Apply(env: Env, p: Progress, f: TorBoxFile, hash: Option<string>, d: Decision): Result<Progress, Error>
    requires d.Print? ==> ValidEntry(d.entry)
  {
    var t := Scanned(env, p.tally, Key(f));
    match d
    case Raise(e) => Raised(e)
    case Skip(diagnostics, observed) =>
      Ok(p.(tally := t.(skipped := t.skipped + 1, diagnostics := t.diagnostics + diagnostics,
                        observed := t.observed + observed)))
    case Keep(row) =>
      Ok(p.(tally := t.(synced := t.synced + [row.(reused := true)], reused := t.reused + 1)))
    case Print(e, known, sourceTitle, diagnostics) =>
      var path := TargetPath(env, p.claimed, e, f);
      if path in p.files && path in env.unreadable then Raised(ReadFailed)
      else Ok(Progress(p.files[path := Content(e.url)], p.claimed[path := Key(f)],
                  t.(synced := t.synced + [SyncedFile(env, path, e, f, hash, known, sourceTitle)],
                     diagnostics := t.diagnostics + diagnostics)))
  }

  /** A printed entry is valid, plays its own file, and keeps the season and episode of its own name. */
  lemma PrintedEntry(env: Env, files: Files, f: TorBoxFile, discovered: map<string, string>)
    ensures var d := Decide(env, files, f, discovered);
            d.Print? ==>
              && ValidEntry(d.entry) && d.entry.url == PlaybackUrl(env, Key(f))
              && ValidEntry(ParsedEntry(env, f))
              && d.entry.season == ParsedEntry(env, f).season && d.entry.episode == ParsedEntry(env, f).episode
  {
    hide ValidEntry, ResolveEntry, Exclusions, Reuses;
    if ValidEntry(ParsedEntry(env, f)) {
      ResolvedEntryIsValid(env, ParsedEntry(env, f), SelectedIdentity(env, f.itemId, InfoHash(env, discovered, f)));
    }
  }

  function StepFile(env: Env, discovered: map<string, string>, p: Progress, f: TorBoxFile): Result<Progress, Error> {
    PrintedEntry(env, p.files, f, discovered);
    Apply(env, p, f, InfoHash(env, discovered, f), Decide(env, p.files, f, discovered))
  }

  // ---------- The run ----------

  /** What one kind lists: its files after extraction, how many extraction dropped, and the hashes it shows. */
  datatype Batch = Batch(kind: string, files: seq<TorBoxFile>, dropped: nat, hashes: map<string, string>)

  function Discovered(b: Batch): map<string, string> {
    if b.kind == "torrents" then b.hashes else map[]
  }

  datatype Run = Running(p: Progress) | Stopped(p: Progress) | Failed(error: Error)

  predicate Full(maxFiles: Option<nat>, t: Tally) {
    maxFiles.Some? && |t.synced| >= maxFiles.value
  }

  function RunFile(env: Env, maxFiles: Option<nat>, b: Batch, r: Run, f: TorBoxFile): Run {
    if !r.Running? then r
    else if Full(maxFiles, r.p.tally) then Stopped(r.p)
    else match StepFile(env, Discovered(b), r.p, f)
      case Ok(p) => Running(p)
      case Raised(e) => Failed(e)
  }

  function RunFiles(env: Env, maxFiles: Option<nat>, b: Batch, r: Run, files: seq<TorBoxFile>): Run
    decreases |files|
  {
    if files == [] then r else RunFile(env, maxFiles, b, RunFiles(env, maxFiles, b, r, Front(files)), Last(files))
  }

  function WithListing(b: Batch, p: Progress): Progress {
    p.(tally := p.tally.(skipped := p.tally.skipped + b.dropped))
  }

  function RunBatch(env: Env, maxFiles: Option<nat>, r: Run, b: Batch): Run {
    if r.Running? then RunFiles(env, maxFiles, b, Running(WithListing(b, r.p)), b.files) else r
  }

  function RunBatches(env: Env, maxFiles: Option<nat>, r: Run, batches: seq<Batch>): Run
    decreases |batches|
  {
    if batches == [] then r else RunBatch(env, maxFiles, RunBatches(env, maxFiles, r, Front(batches)), Last(batches))
  }

  /** A run that has ended stays as it is. */
  lemma {:induction false} EndedFilesStay(env: Env, maxFiles: Option<nat>, b: Batch, r: Run, files: seq<TorBoxFile>, n: nat)
    requires n <= |files| && !RunFiles(env, maxFiles, b, r, files[..n]).Running?
    ensures RunFiles(env, maxFiles, b, r, files) == RunFiles(env, maxFiles, b, r, files[..n])
    decreases |files|
  {
    if n == |files| {
      assert files[..n] == files;
    } else {
      assert Front(files)[..n] == files[..n];
      EndedFilesStay(env, maxFiles, b, r, Front(files), n);
    }
  }

  lemma {:induction false} EndedBatchesStay(env: Env, maxFiles: Option<nat>, r: Run, batches: seq<Batch>, n: nat)
    requires n <= |batches| && !RunBatches(env, maxFiles, r, batches[..n]).Running?
    ensures RunBatches(env, maxFiles, r, batches) == RunBatches(env, maxFiles, r, batches[..n])
    decreases |batches|
  {
    if n == |batches| {
      assert batches[..n] == batches;
    } else {
      assert Front(batches)[..n] == batches[..n];
      EndedBatchesStay(env, maxFiles, r, Front(batches), n);
    }
  }

  datatype SyncResult = SyncResult(
    scanned: nat, written: nat, skipped: nat, synced: seq<Synced>, manifestWritten: bool, partial: bool,
    diagnostics: set<Diagnostic>, observed: set<string>, reused: nat)

  function PathsOf(synced: seq<Synced>): set<Path> {
    set s | s in synced :: s.path
  }

  predicate WritesManifest(env: Env, t: Tally, partial: bool) {
    t.manifest != [] || (env.resolverUrl.Some? && !partial)
  }

  function ResultOf(env: Env, t: Tally, partial: bool): SyncResult {
    SyncResult(
      t.scanned, |PathsOf(t.synced)|, t.skipped, t.synced, WritesManifest(env, t, partial), partial, t.diagnostics,
      t.observed, t.reused)
  }

  /** A partial result merges its manifest entries into those that are there; a full one replaces them. */
  function Finished(env: Env, format: ManifestFormat, p: Progress, partial: bool): Result<(SyncResult, Files), Error> {
    var existing := ExistingEntries(p.files, format, !partial);
    if !WritesManifest(env, p.tally, partial) then Ok((ResultOf(env, p.tally, partial), p.files))
    else if existing.None? then Raised(InvalidManifest)
    else Ok((ResultOf(env, p.tally, partial),
             p.files[MANIFEST_PATH := format.print_(Merged(existing.value, p.tally.manifest))]))
  }

  function Start(env: Env, files: Files): Progress
    requires UniquePaths(env.reusable)
  {
    Progress(files, InitialClaims(env.reusable), NoTally)
  }

  function EndOf(env: Env, format: ManifestFormat, partial: bool, r: Run): Result<(SyncResult, Files), Error> {
    match r
    case Running(p) => Finished(env, format, p, partial)
    case Stopped(p) => Finished(env, format, p, true)
    case Failed(e) => Raised(e)
  }

  /** The whole run; stopping at the limit makes the result partial. */
  function RunOutcome(
    env: Env, format: ManifestFormat, maxFiles: Option<nat>, partial: bool, files: Files, batches: seq<Batch>)
    : Result<(SyncResult, Files), Error>
    requires UniquePaths(env.reusable)
  {
    if maxFiles == Some(0) then Raised(InvalidLimit)
    else EndOf(env, format, partial, RunBatches(env, maxFiles, Running(Start(env, files)), batches))
  }

  // ---------- The class ----------

  class TorBoxStrmSync {
    const env: Env
    const format: ManifestFormat
    const journal: LibraryMutationJournal
    var claimedPaths: Claims

    constructor (env: Env, format: ManifestFormat, journal: LibraryMutationJournal)
      requires UniquePaths(env.reusable)
      ensures this.env == env && this.format == format && this.journal == journal
      ensures claimedPaths == InitialClaims(env.reusable)
    {
      this.env, this.format, this.journal, claimedPaths := env, format, journal, InitialClaims(env.reusable);
    }

    /** Picks the path of an entry and claims it. */
    method ClaimTargetPath(e: Entry, f: TorBoxFile) returns (path: Path)
      requires ValidEntry(e)
      modifies `claimedPaths
      ensures path == TargetPath(env, old(claimedPaths), e, f)
      ensures claimedPaths == old(claimedPaths)[path := Key(f)]
    {
      var key := Key(f);
      if key in env.reusable {
        path := env.reusable[key].path;
        if path !in claimedPaths || claimedPaths[path] == key {
          claimedPaths := claimedPaths[path := key];
          return;
        }
      }
      path := EntryPath(e);
      if path !in claimedPaths || claimedPaths[path] == key {
        claimedPaths := claimedPaths[path := key];
        return;
      }
      path := Alternate(env, e, f);
      if path in claimedPaths && claimedPaths[path] != key {
        path := Suffixed(env, e, f);
      }
      claimedPaths := claimedPaths[path := key];
    }

    /** Decides one file and does it.  Provider calls may raise. */
    method SyncFile(discovered: map<string, string>, f: TorBoxFile, t: Tally) returns (r: Result<Tally, Error>)
      requires journal.Valid()
      modifies `claimedPaths, journal, journal.library
      ensures journal.Valid()
      ensures r.Ok? ==> StepFile(env, discovered, old(Progress(journal.library.files, claimedPaths, t)), f) ==
                        Ok(Progress(journal.library.files, claimedPaths, r.value))
      ensures r.Raised? ==>
                || (r.error == EffectFailed && journal.library.faultIn == 0)
                || StepFile(env, discovered, old(Progress(journal.library.files, claimedPaths, t)), f) == Raised(r.error)
    {
      hide TargetPath, Decide, SyncedFile, Content, Covers;
      var t' := Scanned(env, t, Key(f));
      if !Reuses(env, journal.library.files, f, discovered) {
        var o := journal.library.Attempt();
        if o.Fail? {
          return Raised(o.error);
        }
      }
      var d := Decide(env, journal.library.files, f, discovered);
      PrintedEntry(env, journal.library.files, f, discovered);
      match d {
        case Raise(e) =>
          return Raised(e);
        case Skip(diagnostics, observed) =>
          return Ok(t'.(skipped := t'.skipped + 1, diagnostics := t'.diagnostics + diagnostics,
                        observed := t'.observed + observed));
        case Keep(row) =>
          return Ok(t'.(synced := t'.synced + [row.(reused := true)], reused := t'.reused + 1));
        case Print(e, known, sourceTitle, diagnostics) =>
          var path := ClaimTargetPath(e, f);
          if path in journal.library.files && path in env.unreadable {
            return Raised(ReadFailed);
          }
          var o := WriteStrmFile(journal, path, Content(e.url));
          if o.Fail? {
            return Raised(o.error);
          }
          var row := SyncedFile(env, path, e, f, InfoHash(env, discovered, f), known, sourceTitle);
          return Ok(t'.(synced := t'.synced + [row], diagnostics := t'.diagnostics + diagnostics));
      }
    }

    /** Lists one kind and goes through its files, until the limit is reached. */
    method SyncBatch(b: Batch, t: Tally, maxFiles: Option<nat>) returns (r: Result<(Tally, bool), Error>)
      requires journal.Valid()
      modifies `claimedPaths, journal, journal.library
      ensures journal.Valid()
      ensures var run := RunBatch(env, maxFiles, Running(old(Progress(journal.library.files, claimedPaths, t))), b);
              match r
              case Ok((u, full)) =>
                var p := Progress(journal.library.files, claimedPaths, u);
                run == if full then Stopped(p) else Running(p)
              case Raised(e) => (e == EffectFailed && journal.library.faultIn == 0) || run == Failed(e)
    {
      hide Covers, StepFile, Scanned;
      ghost var listed := Running(WithListing(b, Progress(journal.library.files, claimedPaths, t)));
      var o := journal.library.Attempt();
      if o.Fail? {
        return Raised(o.error);
      }
      var u := t.(skipped := t.skipped + b.dropped);
      for i := 0 to |b.files|
        invariant journal.Valid()
        invariant RunFiles(env, maxFiles, b, listed, b.files[..i]) ==
                  Running(Progress(journal.library.files, claimedPaths, u))
      {
        ghost var next := b.files[..i + 1];
        assert Front(next) == b.files[..i] && Last(next) == b.files[i];
        if maxFiles.Some? && |u.synced| >= maxFiles.value {
          EndedFilesStay(env, maxFiles, b, listed, b.files, i + 1);
          return Ok((u, true));
        }
        var step := SyncFile(Discovered(b), b.files[i], u);
        if step.Raised? {
          if !(step.error == EffectFailed && journal.library.faultIn == 0) {
            EndedFilesStay(env, maxFiles, b, listed, b.files, i + 1);
          }
          return Raised(step.error);
        }
        u := step.value;
      }
      assert b.files[..|b.files|] == b.files;
      return Ok((u, false));
    }

    /** Writes the manifest where there is one to write, and sums the run up. */
    method WriteResult(t: Tally, partial: bool) returns (r: Result<SyncResult, Error>)
      requires journal.Valid()
      modifies journal, journal.library
      ensures journal.Valid()
      ensures var end := Finished(env, format, old(Progress(journal.library.files, claimedPaths, t)), partial);
              match r
              case Ok(result) => end == Ok((result, journal.library.files))
              case Raised(e) => (e == EffectFailed && journal.library.faultIn == 0) || end == Raised(e)
    {
      hide Covers, Merged;
      if t.manifest != [] || (env.resolverUrl.Some? && !partial) {
        var o := WriteManifestEntries(journal, t.manifest, format, !partial);
        if o.Fail? {
          return Raised(o.error);
        }
      }
      return Ok(ResultOf(env, t, partial));
    }

    /** The run does what its specification says unless an effect fails, and the journal covers it at every exit. */
    method Run(batches: seq<Batch>, maxFiles: Option<nat>, partial: bool) returns (r: Result<SyncResult, Error>)
      requires journal.Valid() && UniquePaths(env.reusable) && claimedPaths == InitialClaims(env.reusable)
      modifies `claimedPaths, journal, journal.library
      ensures journal.Valid()
      ensures var end := RunOutcome(env, format, maxFiles, partial, old(journal.library.files), batches);
              match r
              case Ok(result) => end == Ok((result, journal.library.files))
              case Raised(e) => (e == EffectFailed && journal.library.faultIn == 0) || end == Raised(e)
    {
      hide Covers, RunBatch, Finished, InitialClaims, UniquePaths;
      if maxFiles == Some(0) {
        return Raised(InvalidLimit);
      }
      ghost var start := Running(Start(env, journal.library.files));
      var t := NoTally;
      for i := 0 to |batches|
        invariant journal.Valid()
        invariant RunBatches(env, maxFiles, start, batches[..i]) == Running(Progress(journal.library.files, claimedPaths, t))
      {
        ghost var next := batches[..i + 1];
        assert Front(next) == batches[..i] && Last(next) == batches[i];
        var step := SyncBatch(batches[i], t, maxFiles);
        if step.Raised? {
          if !(step.error == EffectFailed && journal.library.faultIn == 0) {
            EndedBatchesStay(env, maxFiles, start, batches, i + 1);
          }
          return Raised(step.error);
        }
        t := step.value.0;
        if step.value.1 {
          EndedBatchesStay(env, maxFiles, start, batches, i + 1);
          r := WriteResult(t, true);
          return;
        }
      }
      assert batches[..|batches|] == batches;
      r := WriteResult(t, partial);
    }
  }
}
