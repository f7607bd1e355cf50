/** What holds after every run of the library sync, wherever it stopped. */
module SyncRuns {
  import opened Common
  import opened IdentityInputs
  import opened LibraryFiles
  import opened LibraryPaths
  import opened StrmSync
  import opened SyncDecisions
  import opened TorBoxFiles

  // ---------- Stopping ----------

  /** Without a limit a run never stops early. */
  lemma {:induction false} NoLimitNoStop(env: Env, r: Run, batches: seq<Batch>)
    requires !r.Stopped?
    ensures !RunBatches(env, None, r, batches).Stopped?
    decreases |batches|
  {
    hide RunFiles;
    if batches != [] {
      NoLimitNoStop(env, r, Front(batches));
      var before := RunBatches(env, None, r, Front(batches));
      if before.Running? {
        NoLimitNoStopInBatch(env, Last(batches), Running(WithListing(Last(batches), before.p)), Last(batches).files);
      }
    }
  }

  lemma {:induction false} NoLimitNoStopInBatch(env: Env, b: Batch, r: Run, files: seq<TorBoxFile>)
    requires !r.Stopped?
    ensures !RunFiles(env, None, b, r, files).Stopped?
    decreases |files|
  {
    hide StepFile;
    if files != [] {
      NoLimitNoStopInBatch(env, b, r, Front(files));
    }
  }

  // ---------- Accounting ----------

  ghost function SumFiles(batches: seq<Batch>): nat {
    if batches == [] then 0 else SumFiles(Front(batches)) + |Last(batches).files|
  }

  ghost function SumDropped(batches: seq<Batch>): nat {
    if batches == [] then 0 else SumDropped(Front(batches)) + Last(batches).dropped
  }

  /** Every scanned file and every file that extraction dropped is synced or skipped, once. */
  ghost predicate Accounted(env: Env, t: Tally, scanned: nat, dropped: nat) {
    && t.scanned == scanned
    && |t.synced| + t.skipped == scanned + dropped
    && t.reused <= |t.synced|
    && |t.manifest| == if env.resolverUrl.Some? then scanned else 0
  }

  lemma StepAccounts(env: Env, discovered: map<string, string>, p: Progress, f: TorBoxFile, scanned: nat, dropped: nat)
    requires Accounted(env, p.tally, scanned, dropped)
    ensures var r := StepFile(env, discovered, p, f);
            r.Ok? ==> Accounted(env, r.value.tally, scanned + 1, dropped)
  {
    hide Decide, TargetPath, SyncedFile;
  }

  lemma {:induction false} FilesAccount(
    env: Env, maxFiles: Option<nat>, b: Batch, p: Progress, files: seq<TorBoxFile>, scanned: nat, dropped: nat)
    returns (n: nat)
    requires Accounted(env, p.tally, scanned, dropped)
    ensures var r := RunFiles(env, maxFiles, b, Running(p), files);
            && n <= |files|
            && (r.Running? ==> n == |files|)
            && (r.Stopped? ==> n < |files| && Full(maxFiles, r.p.tally))
            && (!r.Failed? ==> Accounted(env, r.p.tally, scanned + n, dropped))
    decreases |files|
  {
    hide Accounted, StepFile;
    if files == [] {
      n := 0;
    } else {
      n := FilesAccount(env, maxFiles, b, p, Front(files), scanned, dropped);
      var r := RunFiles(env, maxFiles, b, Running(p), Front(files));
      if r.Running? && !Full(maxFiles, r.p.tally) {
        StepAccounts(env, Discovered(b), r.p, Last(files), scanned + n, dropped);
        n := n + 1;
      }
    }
  }

  lemma ListingAccounts(env: Env, b: Batch, p: Progress, scanned: nat, dropped: nat)
    requires Accounted(env, p.tally, scanned, dropped)
    ensures Accounted(env, WithListing(b, p).tally, scanned, dropped + b.dropped)
  {
  }

  /** On every exit each listed file has been synced or skipped exactly once: a run that ends has scanned all
      files of all kinds; one that stops at its limit has listed `n` kinds and scanned only part of the last. */
  lemma {:induction false} RunAccounts(env: Env, maxFiles: Option<nat>, files: Files, batches: seq<Batch>)
    returns (n: nat)
    requires UniquePaths(env.reusable)
    ensures var r := RunBatches(env, maxFiles, Running(Start(env, files)), batches);
            && n <= |batches|
            && (r.Running? ==> n == |batches| && Accounted(env, r.p.tally, SumFiles(batches), SumDropped(batches)))
            && (r.Stopped? ==>
                  && 0 < n && Full(maxFiles, r.p.tally)
                  && SumFiles(batches[..n - 1]) <= r.p.tally.scanned < SumFiles(batches[..n])
                  && Accounted(env, r.p.tally, r.p.tally.scanned, SumDropped(batches[..n])))
    decreases |batches|
  {
    hide Accounted, RunFiles, WithListing;
    if batches == [] {
      n := 0;
      StartAccounts(env, files);
    } else {
      n := RunAccounts(env, maxFiles, files, Front(batches));
      var r := RunBatches(env, maxFiles, Running(Start(env, files)), Front(batches));
      assert forall k :: 0 <= k <= |Front(batches)| ==> Front(batches)[..k] == batches[..k];
      if r.Running? {
        var b := Last(batches);
        var scanned, dropped := SumFiles(Front(batches)), SumDropped(Front(batches));
        ListingAccounts(env, b, r.p, scanned, dropped);
        var k := FilesAccount(env, maxFiles, b, WithListing(b, r.p), b.files, scanned, dropped + b.dropped);
        n := |batches|;
        assert batches[..n] == batches && batches[..n - 1] == Front(batches);
        ScannedIs(env, RunFiles(env, maxFiles, b, Running(WithListing(b, r.p)), b.files), scanned + k, dropped + b.dropped);
      }
    }
  }

  lemma ScannedIs(env: Env, r: Run, scanned: nat, dropped: nat)
    requires !r.Failed? ==> Accounted(env, r.p.tally, scanned, dropped)
    ensures !r.Failed? ==> r.p.tally.scanned == scanned
  {
  }

  lemma StartAccounts(env: Env, files: Files)
    requires UniquePaths(env.reusable)
    ensures Accounted(env, Start(env, files).tally, 0, 0)
  {
  }

  ghost function SumListed(listings: seq<seq<RawItem>>): nat {
    if listings == [] then 0 else SumListed(Front(listings)) + AllListed(Last(listings))
  }

  lemma {:induction false} SumsOfListings(batches: seq<Batch>, listings: seq<seq<RawItem>>)
    requires |batches| == |listings|
    requires forall i :: 0 <= i < |batches| ==> |batches[i].files| + batches[i].dropped == AllListed(listings[i])
    ensures SumFiles(batches) + SumDropped(batches) == SumListed(listings)
  {
    if batches != [] {
      SumsOfListings(Front(batches), Front(listings));
    }
  }

  /** From the raw listings of all kinds to the result: a run that ends has synced or skipped everything listed. */
  lemma ListedIsSyncedOrSkipped(
    env: Env, maxFiles: Option<nat>, files: Files, batches: seq<Batch>, listings: seq<seq<RawItem>>)
    requires UniquePaths(env.reusable) && |batches| == |listings|
    requires forall i :: 0 <= i < |batches| ==> |batches[i].files| + batches[i].dropped == AllListed(listings[i])
    ensures var r := RunBatches(env, maxFiles, Running(Start(env, files)), batches);
            r.Running? ==> |r.p.tally.synced| + r.p.tally.skipped == SumListed(listings)
  {
    hide RunBatches, AllListed;
    var n := RunAccounts(env, maxFiles, files, batches);
    SumsOfListings(batches, listings);
  }

  function CountReused(synced: seq<Synced>): nat {
    if synced == [] then 0 else CountReused(Front(synced)) + if Last(synced).reused then 1 else 0
  }

  lemma StepCountsReused(env: Env, discovered: map<string, string>, p: Progress, f: TorBoxFile)
    requires p.tally.reused == CountReused(p.tally.synced)
    ensures var r := StepFile(env, discovered, p, f);
            r.Ok? ==> r.value.tally.reused == CountReused(r.value.tally.synced)
  {
    hide Decide, TargetPath, ValidEntry, InfoHash, Content;
    var d, r := Decide(env, p.files, f, discovered), StepFile(env, discovered, p, f);
    PrintedEntry(env, p.files, f, discovered);
    if r.Ok? && (d.Keep? || d.Print?) {
      assert Front(r.value.tally.synced) == p.tally.synced;
    }
  }

  lemma {:induction false} FilesCountReused(env: Env, maxFiles: Option<nat>, b: Batch, p: Progress, files: seq<TorBoxFile>)
    requires p.tally.reused == CountReused(p.tally.synced)
    ensures var r := RunFiles(env, maxFiles, b, Running(p), files);
            !r.Failed? ==> r.p.tally.reused == CountReused(r.p.tally.synced)
    decreases |files|
  {
    hide StepFile, CountReused, Full;
    if files != [] {
      FilesCountReused(env, maxFiles, b, p, Front(files));
      var r := RunFiles(env, maxFiles, b, Running(p), Front(files));
      if r.Running? {
        StepCountsReused(env, Discovered(b), r.p, Last(files));
      }
    }
  }

  lemma {:induction false} RunCountsReused(env: Env, maxFiles: Option<nat>, files: Files, batches: seq<Batch>)
    requires UniquePaths(env.reusable)
    ensures var r := RunBatches(env, maxFiles, Running(Start(env, files)), batches);
            !r.Failed? ==> r.p.tally.reused == CountReused(r.p.tally.synced)
    decreases |batches|
  {
    hide RunFiles;
    if batches != [] {
      RunCountsReused(env, maxFiles, files, Front(batches));
      var r := RunBatches(env, maxFiles, Running(Start(env, files)), Front(batches));
      if r.Running? {
        FilesCountReused(env, maxFiles, Last(batches), WithListing(Last(batches), r.p), Last(batches).files);
      }
    }
  }

  /** What a full run reports: all files of all kinds as scanned, each of these and of those dropped as synced or skipped, the
      reused ones among the synced, and as written the paths that they have. */
  lemma FullRunReports(env: Env, format: ManifestFormat, files: Files, batches: seq<Batch>)
    requires UniquePaths(env.reusable)
    ensures var r := RunOutcome(env, format, None, false, files, batches);
            r.Ok? ==>
              var result := r.value.0;
              && result.scanned == SumFiles(batches)
              && |result.synced| + result.skipped == SumFiles(batches) + SumDropped(batches)
              && result.reused == CountReused(result.synced)
              && result.written == |set x | x in result.synced :: x.path|
              && !result.partial
  {
    hide RunBatches, Start, UniquePaths, CountReused, Merged;
    NoLimitNoStop(env, Running(Start(env, files)), batches);
    RunCountsReused(env, None, files, batches);
    var n := RunAccounts(env, None, files, batches);
  }

  // ---------- The limit ----------

  lemma StepSyncsOne(env: Env, discovered: map<string, string>, p: Progress, f: TorBoxFile)
    ensures var r := StepFile(env, discovered, p, f);
            r.Ok? ==> |r.value.tally.synced| <= |p.tally.synced| + 1
  {
    hide Decide, TargetPath, SyncedFile;
  }

  lemma {:induction false} FilesWithinLimit(env: Env, limit: nat, b: Batch, p: Progress, files: seq<TorBoxFile>)
    requires |p.tally.synced| <= limit
    ensures var r := RunFiles(env, Some(limit), b, Running(p), files);
            !r.Failed? ==> |r.p.tally.synced| <= limit
    decreases |files|
  {
    hide StepFile;
    if files != [] {
      FilesWithinLimit(env, limit, b, p, Front(files));
      var r := RunFiles(env, Some(limit), b, Running(p), Front(files));
      if r.Running? {
        StepSyncsOne(env, Discovered(b), r.p, Last(files));
      }
    }
  }

  lemma {:induction false} RunWithinLimit(env: Env, limit: nat, files: Files, batches: seq<Batch>)
    requires UniquePaths(env.reusable)
    ensures var r := RunBatches(env, Some(limit), Running(Start(env, files)), batches);
            !r.Failed? ==> |r.p.tally.synced| <= limit
    decreases |batches|
  {
    hide RunFiles;
    if batches != [] {
      RunWithinLimit(env, limit, files, Front(batches));
      var r := RunBatches(env, Some(limit), Running(Start(env, files)), Front(batches));
      if r.Running? {
        FilesWithinLimit(env, limit, Last(batches), WithListing(Last(batches), r.p), Last(batches).files);
      }
    }
  }

  lemma {:induction false} SumFilesGrows(batches: seq<Batch>, n: nat)
    requires n <= |batches|
    ensures SumFiles(batches[..n]) <= SumFiles(batches)
    decreases |batches|
  {
    if n == |batches| {
      assert batches[..n] == batches;
    } else {
      assert Front(batches)[..n] == batches[..n];
      SumFilesGrows(Front(batches), n);
    }
  }

  /** A run with a limit syncs no more than that, and its result is partial exactly when it left a listed file unseen: then it
      has synced as many as it may. */
  lemma LimitedRunReports(env: Env, format: ManifestFormat, limit: nat, files: Files, batches: seq<Batch>)
    requires UniquePaths(env.reusable)
    ensures var r := RunOutcome(env, format, Some(limit), false, files, batches);
            && (limit == 0 ==> r == Raised(InvalidLimit))
            && (r.Ok? ==>
                  var result := r.value.0;
                  && |result.synced| <= limit && result.scanned <= SumFiles(batches)
                  && (result.partial <==> result.scanned < SumFiles(batches))
                  && (result.partial ==> |result.synced| == limit))
  {
    hide RunBatches, Start, UniquePaths, Merged, PathsOf;
    RunWithinLimit(env, limit, files, batches);
    var n := RunAccounts(env, Some(limit), files, batches);
    SumFilesGrows(batches, n);
  }

  // ---------- Where files are written ----------

  /** A playback file below one of the three category folders. */
  predicate GeneratedPath(p: Path) {
    && ("movies/" <= p || "shows/" <= p || "anime/" <= p)
    && EndsWith(p, ".strm") && |p| > 5 && p[|p| - 6] != '/'
  }

  lemma {:induction false} JoinShape(parts: seq<string>)
    requires |parts| > 1
    ensures parts[0] + "/" <= JoinPath(parts) && EndsWith(JoinPath(parts), Last(parts))
  {
    if |parts| > 2 {
      JoinShape(parts[1..]);
    }
  }

  lemma TidyEnds(s: string)
    requires Tidy(s)
    ensures s != "" && Last(s) != '/'
  {
    assert !InvalidChar(s[|s| - 1]);
  }

  lemma StemEnds(e: Entry)
    requires ValidEntry(e)
    ensures FileStem(e) != "" && Last(FileStem(e)) != '/'
  {
    assert Tidy("Unknown");
    CleanedIsTidy(Some(e.title), "Unknown");
    hide Tidy, CleanPathSegment, ValidEntry;
    TidyEnds(CleanTitle(e.title));
    if !IsFilm(e) {
      assert IsDigit(Last(Padded(e.episode.value)));
    }
  }

  lemma LabelEnds(source: string, labels: Labels)
    ensures VersionLabel(source, labels) != "" && Last(VersionLabel(source, labels)) != '/'
  {
    assert Tidy("Alternate");
    if labels(source) != [] {
      CleanedIsTidy(Some(JoinWords(Dedup(labels(source)))), "Alternate");
    }
    hide Tidy, CleanPathSegment;
    TidyEnds(VersionLabel(source, labels));
  }

  lemma NameEnds(p: Path, stem: string)
    requires EndsWith(p, stem + ".strm") && stem != ""
    ensures EndsWith(p, ".strm") && |p| > 5 && p[|p| - 6] == Last(stem)
  {
    var name := stem + ".strm";
    assert p[|p| - |name|..] == name && |name| == |stem| + 5;
    assert name[|stem|..] == ".strm" && name[|stem| - 1] == Last(stem);
    assert p[|p| - |name|..][|stem|..] == p[|p| - 5..];
  }

  lemma NamedPathIsGenerated(parts: seq<string>, c: Category, stem: string)
    requires |parts| > 1 && parts[0] == CategoryName(c) && Last(parts) == stem + ".strm" && stem != "" && Last(stem) != '/'
    ensures GeneratedPath(JoinPath(parts))
  {
    hide JoinPath, EndsWith;
    JoinShape(parts);
    NameEnds(JoinPath(parts), stem);
  }

  lemma CanonicalIsGenerated(e: Entry)
    requires ValidEntry(e)
    ensures GeneratedPath(EntryPath(e))
  {
    hide GeneratedPath, FileStem, ValidEntry, JoinPath;
    StemEnds(e);
    NamedPathIsGenerated(LibraryEntryRelativePath(e), e.category, FileStem(e));
  }

  lemma AlternateIsGenerated(e: Entry, source: string, labels: Labels, suffix: Option<string>)
    requires ValidEntry(e)
    ensures GeneratedPath(JoinPath(AlternateVersionPath(LibraryEntryRelativePath(e), source, labels, suffix)))
  {
    hide GeneratedPath, FileStem, ValidEntry, JoinPath, VersionLabel, LibraryPaths.Stem;
    var canonical := LibraryEntryRelativePath(e);
    var version := VersionLabel(source, labels);
    LabelEnds(source, labels);
    var stem := LibraryPaths.Stem(Last(canonical)) + " - " + version + (if suffix.Some? then " [" + suffix.value + "]" else "");
    NamedPathIsGenerated(AlternateVersionPath(canonical, source, labels, suffix), e.category, stem);
  }

  lemma TargetIsGenerated(env: Env, claimed: Claims, e: Entry, f: TorBoxFile)
    requires ValidEntry(e) && forall k :: k in env.reusable ==> GeneratedPath(env.reusable[k].path)
    ensures GeneratedPath(TargetPath(env, claimed, e, f))
  {
    hide GeneratedPath, ValidEntry, JoinPath, LibraryEntryRelativePath, AlternateVersionPath, Free, EntryPath;
    CanonicalIsGenerated(e);
    AlternateIsGenerated(e, SourceName(f), env.labels, None);
    AlternateIsGenerated(e, SourceName(f), env.labels, Some(Prefix8(env.entryId(Key(f)))));
  }

  /** A synced row lies in the library; one that was printed carries its own id and is faithful to the name of its
      file, and one that was reused is as it was offered. */
  predicate RowOk(env: Env, row: Synced) {
    && GeneratedPath(row.path)
    && (!row.reused ==> Faithful(env, row) && row.entryId == env.entryId(Key(row.file)))
    && (row.reused ==> Key(row.file) in env.reusable && row == env.reusable[Key(row.file)].(reused := true))
  }

  /** The rows offered for reuse lie in the library, each under the key of its own file. */
  ghost predicate RowsOk(env: Env) {
    forall k :: k in env.reusable ==> GeneratedPath(env.reusable[k].path) && Key(env.reusable[k].file) == k
  }

  /** The paths of the files that were printed rather than reused. */
  function PrintedPaths(synced: seq<Synced>): set<Path> {
    set s | s in synced && !s.reused :: s.path
  }

  /** Files are only added, at the printed paths; each synced file is there, with a row that is as it should be. */
  ghost predicate Grown(env: Env, initial: Files, p: Progress) {
    && p.files.Keys == initial.Keys + PrintedPaths(p.tally.synced)
    && PathsOf(p.tally.synced) <= p.files.Keys
    && forall s :: s in p.tally.synced ==> RowOk(env, s)
  }

  lemma PathsOfOneMore(synced: seq<Synced>, s: Synced)
    ensures PathsOf(synced + [s]) == PathsOf(synced) + {s.path}
    ensures PrintedPaths(synced + [s]) == PrintedPaths(synced) + if s.reused then {} else {s.path}
  {
    var more := synced + [s];
    assert forall x :: x in more <==> x in synced || x == s;
  }

  lemma KeptRow(env: Env, files: Files, f: TorBoxFile, discovered: map<string, string>)
    requires Decide(env, files, f, discovered).Keep? && RowsOk(env)
    ensures var row := Decide(env, files, f, discovered).row;
            && Key(f) in env.reusable && row == env.reusable[Key(f)] && row.file == f && RowOk(env, row.(reused := true))
            && row.entryId == env.entryId(Key(f))
            && row.contentHash == env.contentHash(PlaybackUrl(env, Key(f)))
            && Lookup(files, row.path) == Some(Content(PlaybackUrl(env, Key(f))))
  {
    hide ValidEntry, ResolveEntry, Exclusions, SameIdentity, GeneratedPath, PlaybackUrl;
  }

  lemma SyncedFileShape(
    env: Env, path: Path, e: Entry, f: TorBoxFile, hash: Option<string>, known: Option<Known>, sourceTitle: string)
    ensures var s := SyncedFile(env, path, e, f, hash, known, sourceTitle);
            && s.path == path && s.file == f && !s.reused && s.entryId == env.entryId(Key(f))
            && s.contentHash == env.contentHash(e.url)
  {
  }

  lemma PrintedRowIsOk(
    env: Env, claimed: Claims, e: Entry, f: TorBoxFile, hash: Option<string>, known: Option<Known>, sourceTitle: string)
    requires ValidEntry(e) && RowsOk(env)
    requires var parsed := ParsedEntry(env, f);
             ValidEntry(parsed) && e.season == parsed.season && e.episode == parsed.episode
    ensures RowOk(env, SyncedFile(env, TargetPath(env, claimed, e, f), e, f, hash, known, sourceTitle))
  {
    hide ValidEntry, GeneratedPath, TargetPath, ParsedEntry;
    TargetIsGenerated(env, claimed, e, f);
  }

  // ---------- The shape of a step ----------

  /** The file was skipped. */
  ghost predicate Skips(p: Progress, q: Progress) {
    q.files == p.files && q.claimed == p.claimed && q.tally.synced == p.tally.synced
  }

  /** The file was synced as `s`: reused as it stands, or written to a path that it claims. */
  ghost predicate Syncs(env: Env, p: Progress, q: Progress, f: TorBoxFile, s: Synced) {
    && q.tally.synced == p.tally.synced + [s]
    && RowOk(env, s) && Describes(env, s, f)
    && (s.reused ==>
          && q.files == p.files && q.claimed == p.claimed
          && Key(f) in env.reusable && s.path == env.reusable[Key(f)].path
          && Lookup(p.files, s.path) == Some(Content(PlaybackUrl(env, Key(f)))))
    && (!s.reused ==>
          && q.files == p.files[s.path := Content(PlaybackUrl(env, Key(f)))]
          && q.claimed == p.claimed[s.path := Key(f)])
  }

  /** The row names its source, and its hash is that of the source's playback address. */
  predicate Describes(env: Env, s: Synced, f: TorBoxFile) {
    s.file == f && s.entryId == env.entryId(Key(f)) && s.contentHash == env.contentHash(PlaybackUrl(env, Key(f)))
  }

  lemma SkipShape(env: Env, p: Progress, f: TorBoxFile, hash: Option<string>, d: Decision)
    requires d.Skip?
    ensures var r := Apply(env, p, f, hash, d);
            && r.Ok? && Skips(p, r.value) && r.value.tally.manifest == Scanned(env, p.tally, Key(f)).manifest
  {
  }

  lemma KeepShape(env: Env, p: Progress, f: TorBoxFile, discovered: map<string, string>)
    requires RowsOk(env) && Decide(env, p.files, f, discovered).Keep?
    ensures var d := Decide(env, p.files, f, discovered);
            var r := Apply(env, p, f, InfoHash(env, discovered, f), d);
            && r.Ok? && Syncs(env, p, r.value, f, d.row.(reused := true))
            && r.value.tally.manifest == Scanned(env, p.tally, Key(f)).manifest
  {
    KeptRow(env, p.files, f, discovered);
    hide RowOk, Decide, RowsOk, Content, PlaybackUrl;
  }

  lemma PrintShape(env: Env, p: Progress, f: TorBoxFile, discovered: map<string, string>)
    requires RowsOk(env) && Decide(env, p.files, f, discovered).Print?
    ensures var d := Decide(env, p.files, f, discovered);
            && ValidEntry(d.entry)
            && var hash := InfoHash(env, discovered, f);
               var s := SyncedFile(env, TargetPath(env, p.claimed, d.entry, f), d.entry, f, hash, d.known, d.sourceTitle);
               var r := Apply(env, p, f, hash, d);
               r.Ok? ==>
                 && Syncs(env, p, r.value, f, s)
                 && r.value.tally.manifest == Scanned(env, p.tally, Key(f)).manifest
  {
    PrintedEntry(env, p.files, f, discovered);
    var d, hash := Decide(env, p.files, f, discovered), InfoHash(env, discovered, f);
    PrintedRowIsOk(env, p.claimed, d.entry, f, hash, d.known, d.sourceTitle);
    SyncedFileShape(env, TargetPath(env, p.claimed, d.entry, f), d.entry, f, hash, d.known, d.sourceTitle);
    hide RowOk, Decide, RowsOk, Content, PlaybackUrl, SyncedFile, TargetPath, ValidEntry, ParsedEntry;
  }

  /** Every step skips its file or syncs it, and a printed file goes to its target path. */
  lemma StepShape(env: Env, discovered: map<string, string>, p: Progress, f: TorBoxFile) returns (s: Option<Synced>)
    requires RowsOk(env)
    ensures var d, r := Decide(env, p.files, f, discovered), StepFile(env, discovered, p, f);
            r.Ok? ==>
              && (s.None? ==> Skips(p, r.value) && !d.Print?)
              && (s.Some? ==>
                    && Syncs(env, p, r.value, f, s.value)
                    && d.Print? == !s.value.reused
                    && (d.Print? ==> ValidEntry(d.entry) && s.value.path == TargetPath(env, p.claimed, d.entry, f)))
              && r.value.tally.manifest == Scanned(env, p.tally, Key(f)).manifest
  {
    hide Decide, Syncs, Skips, RowsOk, TargetPath, ValidEntry, Scanned, SyncedFile;
    var d, hash := Decide(env, p.files, f, discovered), InfoHash(env, discovered, f);
    PrintedEntry(env, p.files, f, discovered);
    s := None;
    match d {
      case Raise(_) =>
      case Skip(_, _) =>
        SkipShape(env, p, f, hash, d);
      case Keep(row) =>
        KeepShape(env, p, f, discovered);
        s := Some(row.(reused := true));
      case Print(e, known, title, _) =>
        PrintShape(env, p, f, discovered);
        var path := TargetPath(env, p.claimed, e, f);
        SyncedFileShape(env, path, e, f, hash, known, title);
        s := Some(SyncedFile(env, path, e, f, hash, known, title));
    }
  }

  // ---------- Growth ----------

  lemma SyncGrows(env: Env, initial: Files, p: Progress, q: Progress, f: TorBoxFile, s: Synced)
    requires Grown(env, initial, p) && Syncs(env, p, q, f, s)
    ensures Grown(env, initial, q)
  {
    hide PathsOf, PrintedPaths, Describes, RowOk, Content, PlaybackUrl;
    PathsOfOneMore(p.tally.synced, s);
    assert q.files.Keys == p.files.Keys + {s.path};
  }

  lemma SkipGrows(env: Env, initial: Files, p: Progress, q: Progress)
    requires Grown(env, initial, p) && Skips(p, q)
    ensures Grown(env, initial, q)
  {
    hide PathsOf, PrintedPaths, RowOk;
  }

  lemma StepGrows(env: Env, initial: Files, discovered: map<string, string>, p: Progress, f: TorBoxFile)
    requires Grown(env, initial, p) && RowsOk(env)
    ensures var r := StepFile(env, discovered, p, f);
            r.Ok? ==> Grown(env, initial, r.value)
  {
    hide StepFile, Decide, RowsOk, Grown, Syncs, Skips, TargetPath, ValidEntry, Scanned;
    var s := StepShape(env, discovered, p, f);
    var r := StepFile(env, discovered, p, f);
    if r.Ok? {
      if s.Some? {
        SyncGrows(env, initial, p, r.value, f, s.value);
      } else {
        SkipGrows(env, initial, p, r.value);
      }
    }
  }

  lemma {:induction false} FilesGrow(
    env: Env, initial: Files, maxFiles: Option<nat>, b: Batch, p: Progress, files: seq<TorBoxFile>)
    requires Grown(env, initial, p) && RowsOk(env)
    ensures var r := RunFiles(env, maxFiles, b, Running(p), files);
            !r.Failed? ==> Grown(env, initial, r.p)
    decreases |files|
  {
    hide Grown, RowsOk, StepFile;
    if files != [] {
      FilesGrow(env, initial, maxFiles, b, p, Front(files));
      var r := RunFiles(env, maxFiles, b, Running(p), Front(files));
      if r.Running? {
        StepGrows(env, initial, Discovered(b), r.p, Last(files));
      }
    }
  }

  /** Whatever the provider answers: a run only adds files, at printed library paths, every synced file is on
      disk, every printed row is faithful to the name of its file, and every reused row is as it was offered. */
  lemma {:induction false} RunGrows(env: Env, files: Files, maxFiles: Option<nat>, batches: seq<Batch>)
    requires UniquePaths(env.reusable) && RowsOk(env)
    ensures var r := RunBatches(env, maxFiles, Running(Start(env, files)), batches);
            !r.Failed? ==> Grown(env, files, r.p)
    decreases |batches|
  {
    if batches == [] {
      assert Grown(env, files, Start(env, files));
    } else {
      RunGrows(env, files, maxFiles, Front(batches));
      var r := RunBatches(env, maxFiles, Running(Start(env, files)), Front(batches));
      if r.Running? {
        var b := Last(batches);
        assert Grown(env, files, WithListing(b, r.p));
        hide Grown, RowsOk, RunFiles;
        FilesGrow(env, files, maxFiles, b, WithListing(b, r.p), b.files);
      }
    }
  }
}
