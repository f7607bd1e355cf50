/** What a user has removed does not come back: no sync writes below an excluded folder. */
module RemovedStaysAway {
  import opened Common
  import opened LibraryAgreement
  import opened LibraryFiles
  import opened LibraryPaths
  import opened LibraryRemoval
  import opened SqlLike
  import opened StrmSync
  import opened SyncDecisions
  import opened SyncOwnership
  import opened SyncRuns
  import opened SyncState
  import opened TorBoxFiles

  /** The path lies below none of the prefixes; it may be one of them. */
  ghost predicate NotBelow(excluded: set<string>, path: Path) {
    forall prefix :: prefix in excluded && Excludes(prefix, path) ==> prefix == path
  }

  // ---------- Paths of one entry ----------

  lemma CleanHasNoSlash(s: string)
    requires Tidy(s)
    ensures '/' !in s
  {
    forall c | c in s ensures c != '/' {
      var i :| 0 <= i < |s| && s[i] == c;
      assert !InvalidChar(s[i]);
    }
  }

  lemma DigitsHaveNoSlash(n: nat)
    ensures '/' !in Decimal(n) && '/' !in Padded(n)
  {
    assert forall i :: 0 <= i < |Decimal(n)| ==> IsDigit(Decimal(n)[i]);
    assert forall i :: 0 <= i < |Padded(n)| ==> IsDigit(Padded(n)[i]);
  }

  lemma YearHasNoSlash(year: int)
    ensures '/' !in IntText(year)
  {
    DigitsHaveNoSlash(if year < 0 then -year else year);
  }

  lemma StemHasNoSlash(e: Entry)
    requires ValidEntry(e)
    ensures '/' !in FileStem(e)
  {
    assert Tidy("Unknown");
    CleanedIsTidy(Some(e.title), "Unknown");
    hide Tidy, CleanPathSegment, ValidEntry, Decimal, Padded;
    CleanHasNoSlash(CleanTitle(e.title));
    if IsFilm(e) {
      if e.year.Some? {
        YearHasNoSlash(e.year.value);
      }
    } else {
      DigitsHaveNoSlash(e.season.value);
      DigitsHaveNoSlash(e.episode.value);
    }
  }

  lemma LabelHasNoSlash(source: string, labels: Labels)
    ensures '/' !in VersionLabel(source, labels)
  {
    assert Tidy("Alternate");
    if labels(source) != [] {
      CleanedIsTidy(Some(JoinWords(Dedup(labels(source)))), "Alternate");
    }
    hide Tidy, CleanPathSegment;
    CleanHasNoSlash(VersionLabel(source, labels));
  }

  /** The last part after a slash holds none, so a prefix up to a slash ends before it. */
  lemma PrefixOfFolder(prefix: string, folder: string, name: string)
    requires '/' !in name && prefix + "/" <= folder + "/" + name
    ensures prefix + "/" <= folder + "/"
  {
    var path, n := folder + "/" + name, |prefix|;
    assert path[n] == (prefix + "/")[n] == '/';
    assert forall i :: |folder| < i < |path| ==> path[i] == name[i - |folder| - 1] && path[i] in name;
    assert folder + "/" == path[..|folder| + 1];
  }

  lemma {:induction false} JoinFront(parts: seq<string>)
    requires |parts| > 1
    ensures JoinPath(parts) == JoinPath(Front(parts)) + "/" + Last(parts)
  {
    if |parts| > 2 {
      JoinFront(parts[1..]);
      assert Front(parts)[1..] == Front(parts[1..]);
    }
  }

  /** Two files of one folder are below the same prefixes. */
  lemma SameFolder(prefix: string, a: seq<string>, b: seq<string>)
    requires |a| > 1 && |b| > 1 && Front(a) == Front(b) && '/' !in Last(b)
    requires Excludes(prefix, JoinPath(b)) && prefix != JoinPath(b)
    ensures Excludes(prefix, JoinPath(a))
  {
    JoinFront(a);
    JoinFront(b);
    PrefixOfFolder(prefix, JoinPath(Front(b)), Last(b));
  }

  lemma AlternateBeside(prefix: string, e: Entry, source: string, labels: Labels, suffix: Option<string>)
    requires ValidEntry(e) && !Excludes(prefix, EntryPath(e)) && (suffix.Some? ==> '/' !in suffix.value)
    ensures var path := JoinPath(AlternateVersionPath(LibraryEntryRelativePath(e), source, labels, suffix));
            Excludes(prefix, path) ==> prefix == path
  {
    var canonical := LibraryEntryRelativePath(e);
    var alternate := AlternateVersionPath(canonical, source, labels, suffix);
    StemEnds(e);
    StemOfStrm(FileStem(e));
    StemHasNoSlash(e);
    LabelHasNoSlash(source, labels);
    assert Last(canonical) == FileStem(e) + ".strm";
    hide ValidEntry, FileStem, VersionLabel, Excludes, JoinPath, LibraryPaths.Stem;
    assert Front(alternate) == Front(canonical) && |alternate| == |canonical| > 1;
    assert '/' !in Last(alternate);
    if Excludes(prefix, JoinPath(alternate)) && prefix != JoinPath(alternate) {
      SameFolder(prefix, canonical, alternate);
    }
  }

  /** An entry that no prefix excludes is printed below none of them.  Only the very path of another version can
      be excluded and printed all the same. */
  lemma TargetIsNotBelow(env: Env, claimed: Claims, e: Entry, f: TorBoxFile)
    requires ValidEntry(e) && Exclusions(env, e) == {} && '/' !in env.entryId(Key(f))
    requires Key(f) in env.reusable ==> NotBelow(env.excluded, env.reusable[Key(f)].path)
    ensures NotBelow(env.excluded, TargetPath(env, claimed, e, f))
  {
    hide ValidEntry, EntryPath, Free, AlternateVersionPath, LibraryEntryRelativePath, SourceName;
    var path := TargetPath(env, claimed, e, f);
    forall prefix | prefix in env.excluded && Excludes(prefix, path) ensures prefix == path {
      assert prefix !in Exclusions(env, e);
      AlternateBeside(prefix, e, SourceName(f), env.labels, None);
      AlternateBeside(prefix, e, SourceName(f), env.labels, Some(Prefix8(env.entryId(Key(f)))));
    }
  }

  /** So a printed path is itself excluded exactly when it is not canonical: the source keeps a path of its own that
      is excluded, or another source holds the canonical path and the alternate, or behind that the suffixed one, is. */
  lemma ExcludedTarget(env: Env, claimed: Claims, e: Entry, f: TorBoxFile)
    requires ValidEntry(e) && Exclusions(env, e) == {}
    ensures var key := Key(f);
            var own := key in env.reusable && Free(claimed, env.reusable[key].path, key);
            TargetPath(env, claimed, e, f) in env.excluded <==>
              || (own && env.reusable[key].path in env.excluded)
              || (!own && !Free(claimed, EntryPath(e), key)
                  && (if Free(claimed, Alternate(env, e, f), key) then Alternate(env, e, f) in env.excluded
                      else Suffixed(env, e, f) in env.excluded))
  {
    hide ValidEntry, EntryPath, Alternate, Suffixed, Free;
    forall prefix | prefix in env.excluded ensures prefix != EntryPath(e) {
      assert prefix !in Exclusions(env, e);
    }
  }

  /** Where this stops: the exclusion of one version's file is compared with the canonical path only, so while
      another source holds the canonical path that version is printed again. */
  lemma ExcludedVersionComesBack(env: Env, claimed: Claims, e: Entry, f: TorBoxFile)
    requires ValidEntry(e) && env.excluded == {Alternate(env, e, f)} && Key(f) !in env.reusable
    requires !Free(claimed, EntryPath(e), Key(f)) && Free(claimed, Alternate(env, e, f), Key(f))
    ensures Exclusions(env, e) == {} && TargetPath(env, claimed, e, f) in env.excluded
  {
    PathLengths(env, e, f);
    hide ValidEntry, EntryPath, Alternate, Free;
    forall prefix | prefix in env.excluded ensures !Excludes(prefix, EntryPath(e)) {
      assert |prefix| > |EntryPath(e)|;
    }
  }

  // ---------- Runs ----------

  lemma PrintedIsNotExcluded(env: Env, files: Files, f: TorBoxFile, discovered: map<string, string>)
    ensures var d := Decide(env, files, f, discovered);
            d.Print? ==> ValidEntry(d.entry) && Exclusions(env, d.entry) == {}
  {
    PrintedEntry(env, files, f, discovered);
    hide ValidEntry, ResolveEntry, Exclusions, Reuses, ParsedEntry;
  }

  /** Ids hold no slash, and nothing offered for reuse lies below an excluded prefix. */
  ghost predicate InputsOk(env: Env) {
    && (forall k :: '/' !in env.entryId(k))
    && forall k :: k in env.reusable ==> NotBelow(env.excluded, env.reusable[k].path)
  }

  ghost predicate SyncedNotBelow(env: Env, p: Progress) {
    forall s :: s in p.tally.synced ==> NotBelow(env.excluded, s.path)
  }

  lemma StepStaysAway(env: Env, discovered: map<string, string>, p: Progress, f: TorBoxFile)
    requires SyncedNotBelow(env, p) && InputsOk(env) && RowsOk(env)
    ensures var r := StepFile(env, discovered, p, f);
            r.Ok? ==> SyncedNotBelow(env, r.value)
  {
    hide StepFile, Decide, RowsOk, RowOk, TargetPath, ValidEntry, Scanned, NotBelow, Describes, Content, PlaybackUrl, Exclusions;
    var s := StepShape(env, discovered, p, f);
    var d, r := Decide(env, p.files, f, discovered), StepFile(env, discovered, p, f);
    if r.Ok? && s.Some? && d.Print? {
      PrintedIsNotExcluded(env, p.files, f, discovered);
      TargetIsNotBelow(env, p.claimed, d.entry, f);
    }
  }

  lemma {:induction false} FilesStayAway(env: Env, b: Batch, p: Progress, files: seq<TorBoxFile>)
    requires SyncedNotBelow(env, p) && InputsOk(env) && RowsOk(env)
    ensures var r := RunFiles(env, None, b, Running(p), files);
            !r.Failed? ==> SyncedNotBelow(env, r.p)
    decreases |files|
  {
    hide SyncedNotBelow, InputsOk, RowsOk, StepFile;
    if files != [] {
      FilesStayAway(env, b, p, Front(files));
      var r := RunFiles(env, None, b, Running(p), Front(files));
      if r.Running? {
        StepStaysAway(env, Discovered(b), r.p, Last(files));
      }
    }
  }

  lemma ListingStaysAway(env: Env, b: Batch, p: Progress)
    requires SyncedNotBelow(env, p)
    ensures SyncedNotBelow(env, WithListing(b, p))
  {
    hide NotBelow;
  }

  lemma {:induction false} RunStaysAway(env: Env, files: Files, batches: seq<Batch>)
    requires UniquePaths(env.reusable) && InputsOk(env) && RowsOk(env)
    ensures var r := RunBatches(env, None, Running(Start(env, files)), batches);
            !r.Failed? ==> SyncedNotBelow(env, r.p)
    decreases |batches|
  {
    hide InputsOk, RowsOk, RunFiles, UniquePaths;
    if batches != [] {
      RunStaysAway(env, files, Front(batches));
      var r := RunBatches(env, None, Running(Start(env, files)), Front(batches));
      if r.Running? {
        var b := Last(batches);
        ListingStaysAway(env, b, r.p);
        hide SyncedNotBelow;
        FilesStayAway(env, b, WithListing(b, r.p), b.files);
      }
    }
  }

  // ---------- All runs of operations ----------

  /** No row, and so no playback file, lies below an excluded prefix. */
  ghost predicate StaysAway(s: System) {
    forall p :: p in s.db.generated ==> NotBelow(s.db.exclusions, p)
  }

  lemma SyncStaysAway(
    h: Hash, s: System, env: Env, format: ManifestFormat, batches: seq<Batch>, partial: bool, owners: Synced -> Id,
    retained: set<string>)
    requires StaysAway(s) && DbOk(s.db) && UniquePaths(env.reusable) && RowsOk(env) && InputsOk(env)
    requires env.contentHash == h && env.excluded == s.db.exclusions
    ensures var r := SyncApplied(s, env, format, batches, partial, owners, retained);
            r.Ok? ==> StaysAway(r.value) && forall p :: p in r.value.db.generated ==> NotBelow(s.db.exclusions, p)
  {
    hide RunBatches, Start, DbOk, UniquePaths, RowsOk, InputsOk, Persisted, GeneratedPath, Hashed, RowOk, WithoutStale,
      LastPrinted, PrintedPaths, PathsOf, Disk, NotBelow, Merged, HasLookupFailure;
    var run := RunOutcome(env, format, None, partial, s.files, batches);
    if run.Ok? {
      RunOutcomeDid(h, env, format, partial, s.files, batches);
      RunStaysAway(env, s.files, batches);
      var result := run.value.0;
      PrintedAreGenerated(env, result.synced);
      PersistKeepsDb(s.db, result, owners, retained);
      var persisted := Persisted(s.db, result, owners, retained);
      if persisted.Ok? {
        RowsStayAway(s, env, result, persisted.value.0);
      }
    }
  }

  lemma RowsStayAway(s: System, env: Env, result: SyncResult, db: Db)
    requires StaysAway(s) && env.excluded == s.db.exclusions == db.exclusions
    requires forall x :: x in result.synced ==> NotBelow(env.excluded, x.path)
    requires db.generated.Keys <= s.db.generated.Keys + PrintedPaths(result.synced)
    ensures forall p :: p in db.generated ==> NotBelow(s.db.exclusions, p)
    ensures forall p :: p in db.generated ==> NotBelow(Reconciled(db, result).exclusions, p)
  {
    hide HasLookupFailure;
    forall p | p in db.generated ensures NotBelow(Reconciled(db, result).exclusions, p) {
      assert NotBelow(db.exclusions, p);
    }
  }

  lemma RemovalStaysAway(s: System, prefix: string, s': System)
    requires StaysAway(s) && RemovalApplied(s, prefix, s')
    ensures StaysAway(s')
  {
    hide GeneratedPath, Excludes, PathMatchesPrefix, StagedPaths, Target;
    forall p, e | p in s'.db.generated && e in s'.db.exclusions && Excludes(e, p) ensures e == p {
      PrefixTestsAgree(prefix, p);
      assert p in s.db.generated && !PathMatchesPrefix(prefix, p);
      assert NotBelow(s.db.exclusions, p);
    }
  }

  /** Over every sequence of syncs, failures and removals, nothing is ever written below a folder while it is excluded. */
  lemma {:induction false} RemovedMediaStaysAway(h: Hash, states: seq<System>, ops: seq<Operation>, n: nat)
    requires IsRun(h, states, ops) && Agreement(h, states[0]) && StaysAway(states[0]) && n < |states|
    requires forall op :: op in ops && op.Removal? ==> Normal(op.prefix)
    requires forall op, k :: op in ops && op.Sync? ==> '/' !in op.env.entryId(k)
    ensures StaysAway(states[n])
    ensures forall p, prefix :: p in Disk(states[n].files) && prefix in states[n].db.exclusions ==> !(prefix + "/" <= p)
  {
    hide Normal, SyncApplied, IsReusable, UniquePaths, RemovalApplied, DbOk, Hashed, Disk;
    RunKeepsAgreement(h, states, ops, n);
    forall p, prefix | p in Disk(states[n].files) && prefix in states[n].db.exclusions && StaysAway(states[n])
      ensures !(prefix + "/" <= p)
    {
      assert NotBelow(states[n].db.exclusions, p);
    }
    if n > 0 {
      RemovedMediaStaysAway(h, states, ops, n - 1);
      RunKeepsAgreement(h, states, ops, n - 1);
      var s, op := states[n - 1], ops[n - 1];
      assert Step(h, s, op, states[n]) && op in ops;
      match op {
        case Sync(env, format, batches, partial, owners, retained, view) =>
          ReusableRows(s.db, view, env);
          OfferedNotBelow(s, view, env);
          hide StaysAway, RowsOk, InputsOk, Agreement;
          SyncStaysAway(h, s, env, format, batches, partial, owners, retained);
        case Undone =>
        case Removal(prefix) =>
          RemovalStaysAway(s, prefix, states[n]);
      }
    }
  }

  lemma OfferedNotBelow(s: System, view: Id -> MediaView, env: Env)
    requires StaysAway(s) && IsReusable(s.db, view, env.reusable) && env.excluded == s.db.exclusions
    requires forall k :: '/' !in env.entryId(k)
    ensures InputsOk(env)
  {
    hide NotBelow;
  }
}
