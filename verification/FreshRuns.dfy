/** Whole runs: reusing rows gives what processing every file again would give. */
module FreshRuns {
  import opened Common
  import opened LibraryFiles
  import opened LibraryPaths
  import opened ReuseAgreement
  import opened StrmSync
  import opened SyncDecisions
  import opened SyncOwnership
  import opened SyncRuns
  import opened TorBoxFiles

  // ---------- A run that never reuses ----------

  function FreshFile(env: Env, maxFiles: Option<nat>, b: Batch, r: Run, f: TorBoxFile): Run {
    if !r.Running? then r
    else if Full(maxFiles, r.p.tally) then Stopped(r.p)
    else match FreshStep(env, Discovered(b), r.p, f)
      case Ok(p) => Running(p)
      case Raised(e) => Failed(e)
  }

  function FreshFiles(env: Env, maxFiles: Option<nat>, b: Batch, r: Run, files: seq<TorBoxFile>): Run
    decreases |files|
  {
    if files == [] then r else FreshFile(env, maxFiles, b, FreshFiles(env, maxFiles, b, r, Front(files)), Last(files))
  }

  function FreshBatch(env: Env, maxFiles: Option<nat>, r: Run, b: Batch): Run {
    if r.Running? then FreshFiles(env, maxFiles, b, Running(WithListing(b, r.p)), b.files) else r
  }

  function FreshBatches(env: Env, maxFiles: Option<nat>, r: Run, batches: seq<Batch>): Run
    decreases |batches|
  {
    if batches == [] then r else FreshBatch(env, maxFiles, FreshBatches(env, maxFiles, r, Front(batches)), Last(batches))
  }

  /** Whatever is on disk, a row that would be accepted for a listed file is stable. */
  ghost predicate StableFiles(env: Env, b: Batch, files: seq<TorBoxFile>) {
    forall f, disk :: f in files && Reuses(env, disk, f, Discovered(b)) ==>
      && Faithful(env, env.reusable[Key(f)])
      && Stable(env, env.reusable[Key(f)], f, SelectedIdentity(env, f.itemId, InfoHash(env, Discovered(b), f)))
  }

  // ---------- Steps ----------

  /** The same files, claims, counters, manifest and records; only the counter of reuses may differ. */
  ghost predicate SameProgress(p: Progress, q: Progress) {
    SameOutcome(Ok(p), Ok(q))
  }

  lemma SameScan(env: Env, p: Progress, q: Progress, key: SourceFileKey)
    requires SameProgress(p, q)
    ensures SameProgress(p.(tally := Scanned(env, p.tally, key)), q.(tally := Scanned(env, q.tally, key)))
  {
  }

  /** Doing the same to what is the same gives the same. */
  lemma ApplySame(env: Env, p: Progress, q: Progress, f: TorBoxFile, hash: Option<string>, d: Decision)
    requires SameProgress(p, q) && (d.Print? ==> ValidEntry(d.entry))
    ensures SameOutcome(Apply(env, p, f, hash, d), Apply(env, q, f, hash, d))
  {
    SameScan(env, p, q, Key(f));
    hide ValidEntry, TargetPath, SyncedFile, Content, Scanned;
  }

  lemma SameOutcomeTwice(a: Result<Progress, Error>, b: Result<Progress, Error>, c: Result<Progress, Error>)
    requires SameOutcome(a, b) && SameOutcome(b, c)
    ensures SameOutcome(a, c)
  {
  }

  lemma SameAsItself(a: Result<Progress, Error>)
    ensures SameOutcome(a, a)
  {
  }

  lemma StepSame(env: Env, b: Batch, files: seq<TorBoxFile>, p: Progress, q: Progress, f: TorBoxFile)
    requires StableFiles(env, b, files) && f in files && ReusableKept(env, p.claimed) && SameProgress(p, q)
    ensures SameOutcome(StepFile(env, Discovered(b), p, f), FreshStep(env, Discovered(b), q, f))
  {
    hide SameOutcome, ReusableKept, Stable, Faithful, Reuses, FreshDecision, SelectedIdentity, Apply, ValidEntry, ReuseDecision;
    var discovered := Discovered(b);
    var hash := InfoHash(env, discovered, f);
    FreshIsValid(env, f, SelectedIdentity(env, f.itemId, hash));
    if Reuses(env, p.files, f, discovered) {
      StableReuseEqualsReprocessing(env, discovered, p, f);
    } else {
      SameAsItself(FreshStep(env, discovered, p, f));
    }
    ApplySame(env, p, q, f, hash, FreshDecision(env, f, SelectedIdentity(env, f.itemId, hash)));
    SameOutcomeTwice(StepFile(env, discovered, p, f), FreshStep(env, discovered, p, f), FreshStep(env, discovered, q, f));
  }

  // ---------- Runs ----------

  ghost predicate SameRun(r: Run, s: Run) {
    match (r, s)
    case (Running(p), Running(q)) => SameProgress(p, q)
    case (Stopped(p), Stopped(q)) => SameProgress(p, q)
    case (Failed(e), Failed(g)) => e == g
    case _ => false
  }

  lemma SameFull(maxFiles: Option<nat>, p: Progress, q: Progress)
    requires SameProgress(p, q)
    ensures Full(maxFiles, p.tally) <==> Full(maxFiles, q.tally)
  {
  }

  lemma OwnedIsKept(env: Env, p: Progress)
    requires RunInv(env, p)
    ensures ReusableKept(env, p.claimed)
  {
  }

  lemma {:induction false} FilesSame(
    env: Env, maxFiles: Option<nat>, b: Batch, p: Progress, q: Progress, all: seq<TorBoxFile>, files: seq<TorBoxFile>)
    requires RunInv(env, p) && InjectiveIds(env) && RowsOk(env) && SameProgress(p, q)
    requires FilesClashFree(env, maxFiles, b, Running(p), files)
    requires StableFiles(env, b, all) && files <= all
    ensures SameRun(RunFiles(env, maxFiles, b, Running(p), files), FreshFiles(env, maxFiles, b, Running(q), files))
    decreases |files|
  {
    hide RunInv, InjectiveIds, RowsOk, SameProgress, StableFiles, StepFile, FreshStep, FileClashFree, Full, ReusableKept;
    if files != [] {
      assert FilesClashFree(env, maxFiles, b, Running(p), Front(files));
      FilesSame(env, maxFiles, b, p, q, all, Front(files));
      FilesKeepRunInv(env, maxFiles, b, p, Front(files));
      var r, s := RunFiles(env, maxFiles, b, Running(p), Front(files)), FreshFiles(env, maxFiles, b, Running(q), Front(files));
      if r.Running? {
        SameFull(maxFiles, r.p, s.p);
        OwnedIsKept(env, r.p);
        assert Last(files) == all[|files| - 1];
        StepSame(env, b, all, r.p, s.p, Last(files));
        OutcomesRun(StepFile(env, Discovered(b), r.p, Last(files)), FreshStep(env, Discovered(b), s.p, Last(files)));
      }
    }
  }

  lemma OutcomesRun(a: Result<Progress, Error>, b: Result<Progress, Error>)
    requires SameOutcome(a, b)
    ensures (a.Ok? <==> b.Ok?) && (a.Ok? ==> SameProgress(a.value, b.value)) && (a.Raised? ==> a.error == b.error)
  {
  }

  lemma SameListing(b: Batch, p: Progress, q: Progress)
    requires SameProgress(p, q)
    ensures SameProgress(WithListing(b, p), WithListing(b, q))
  {
  }

  /** Without a clash and with every acceptable row stable, a run that reuses and one that never does come to the same:
      they fail alike, stop alike or end with the same files, claims, manifest entries, counters and records. */
  lemma {:induction false} RunEqualsFreshRun(env: Env, files: Files, maxFiles: Option<nat>, batches: seq<Batch>)
    requires UniquePaths(env.reusable) && InjectiveIds(env) && RowsOk(env)
    requires ClashFree(env, maxFiles, Running(Start(env, files)), batches)
    requires forall b :: b in batches ==> StableFiles(env, b, b.files)
    ensures SameRun(RunBatches(env, maxFiles, Running(Start(env, files)), batches),
                    FreshBatches(env, maxFiles, Running(Start(env, files)), batches))
    decreases |batches|
  {
    hide RunInv, InjectiveIds, RowsOk, SameProgress, StableFiles, RunFiles, FreshFiles, FilesClashFree, UniquePaths;
    var start := Running(Start(env, files));
    if batches == [] {
      StartIsSame(env, files);
    } else {
      assert forall b :: b in Front(batches) ==> b in batches;
      RunEqualsFreshRun(env, files, maxFiles, Front(batches));
      RunKeepsRunInv(env, files, maxFiles, Front(batches));
      var r, s := RunBatches(env, maxFiles, start, Front(batches)), FreshBatches(env, maxFiles, start, Front(batches));
      if r.Running? {
        var b := Last(batches);
        ListingKeepsRunInv(env, b, r.p);
        SameListing(b, r.p, s.p);
        FilesSame(env, maxFiles, b, WithListing(b, r.p), WithListing(b, s.p), b.files, b.files);
      }
    }
  }

  lemma StartIsSame(env: Env, files: Files)
    requires UniquePaths(env.reusable)
    ensures SameProgress(Start(env, files), Start(env, files))
  {
  }

  lemma {:induction false} SamePaths(a: seq<Synced>, b: seq<Synced>)
    requires |a| == |b| && forall i :: 0 <= i < |a| ==> SameRecord(a[i], b[i])
    ensures PathsOf(a) == PathsOf(b)
  {
    if a != [] {
      SamePaths(Front(a), Front(b));
      assert a == Front(a) + [Last(a)] && b == Front(b) + [Last(b)];
      PathsOfOneMore(Front(a), Last(a));
      PathsOfOneMore(Front(b), Last(b));
    }
  }

  /** The same files, with the manifest, and the same numbers but for that of reuses; or the same error. */
  ghost predicate SameResult(r: Result<(SyncResult, Files), Error>, s: Result<(SyncResult, Files), Error>) {
    match (r, s)
    case (Raised(e), Raised(g)) => e == g
    case (Ok((a, after)), Ok((b, other))) => after == other && b == a.(reused := b.reused, synced := b.synced)
    case _ => false
  }

  lemma FinishedSame(env: Env, format: ManifestFormat, p: Progress, q: Progress, partial: bool)
    requires SameProgress(p, q)
    ensures SameResult(Finished(env, format, p, partial), Finished(env, format, q, partial))
  {
    SamePaths(p.tally.synced, q.tally.synced);
    hide PathsOf, Merged, SameRecord;
  }

  /** And so do their results. */
  lemma ResultsEqual(
    env: Env, format: ManifestFormat, files: Files, maxFiles: Option<nat>, partial: bool, batches: seq<Batch>)
    requires UniquePaths(env.reusable) && InjectiveIds(env) && RowsOk(env)
    requires ClashFree(env, maxFiles, Running(Start(env, files)), batches)
    requires forall b :: b in batches ==> StableFiles(env, b, b.files)
    ensures SameResult(
              EndOf(env, format, partial, RunBatches(env, maxFiles, Running(Start(env, files)), batches)),
              EndOf(env, format, partial, FreshBatches(env, maxFiles, Running(Start(env, files)), batches)))
  {
    RunEqualsFreshRun(env, files, maxFiles, batches);
    hide RunBatches, FreshBatches, Start, StableFiles, ClashFree, UniquePaths, InjectiveIds, RowsOk, SameProgress, Finished;
    var start := Running(Start(env, files));
    var r, s := RunBatches(env, maxFiles, start, batches), FreshBatches(env, maxFiles, start, batches);
    if !r.Failed? {
      FinishedSame(env, format, r.p, s.p, if r.Stopped? then true else partial);
    }
  }
}
