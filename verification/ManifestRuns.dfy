/** What a run leaves of the resolver manifest. */
module ManifestRuns {
  import opened Common
  import opened LibraryAgreement
  import opened LibraryFiles
  import opened SecondSync
  import opened StrmSync
  import opened SyncDecisions
  import opened SyncOwnership
  import opened SyncRuns
  import opened TorBoxFiles

  /** What the manifest says, if it can be read; without one nothing is resolved. */
  function Resolved(files: Files, format: ManifestFormat): Option<map<string, string>> {
    if MANIFEST_PATH in files then format.read_(files[MANIFEST_PATH]) else Some(map[])
  }

  /** The entry is for a listed file. */
  ghost predicate ForListed(env: Env, batches: seq<Batch>, entry: (string, string)) {
    exists b, f :: b in batches && f in b.files && entry == (env.entryId(Key(f)), env.directUrl(Key(f)))
  }

  ghost predicate AllForListed(env: Env, batches: seq<Batch>, entries: seq<(string, string)>) {
    forall e :: e in entries ==> ForListed(env, batches, e)
  }

  lemma StepForListed(env: Env, all: seq<Batch>, b: Batch, p: Progress, f: TorBoxFile)
    requires RowsOk(env) && b in all && f in b.files && AllForListed(env, all, p.tally.manifest)
    ensures var r := StepFile(env, Discovered(b), p, f);
            r.Ok? ==>
              && AllForListed(env, all, r.value.tally.manifest)
              && Lookup(r.value.files, MANIFEST_PATH) == Lookup(p.files, MANIFEST_PATH)
  {
    hide StepFile, Decide, RowsOk, TargetPath, Faithful, Content, PlaybackUrl;
    var s := StepShape(env, Discovered(b), p, f);
    assert !GeneratedPath(MANIFEST_PATH);
    hide GeneratedPath;
    assert ForListed(env, all, (env.entryId(Key(f)), env.directUrl(Key(f))));
    hide ForListed;
  }

  lemma {:induction false} FilesForListed(
    env: Env, all: seq<Batch>, maxFiles: Option<nat>, b: Batch, p: Progress, files: seq<TorBoxFile>)
    requires RowsOk(env) && b in all && (forall f :: f in files ==> f in b.files) && AllForListed(env, all, p.tally.manifest)
    ensures var r := RunFiles(env, maxFiles, b, Running(p), files);
            !r.Failed? ==>
              && AllForListed(env, all, r.p.tally.manifest)
              && Lookup(r.p.files, MANIFEST_PATH) == Lookup(p.files, MANIFEST_PATH)
    decreases |files|
  {
    hide RowsOk, StepFile, AllForListed, Full;
    if files != [] {
      assert forall f :: f in Front(files) ==> f in files;
      FilesForListed(env, all, maxFiles, b, p, Front(files));
      var r := RunFiles(env, maxFiles, b, Running(p), Front(files));
      assert Last(files) in files;
      if r.Running? {
        StepForListed(env, all, b, r.p, Last(files));
      }
    }
  }

  /** However it ends, a run notes only entries of listed files, and leaves the manifest alone until it has ended. */
  lemma {:induction false} RunForListed(env: Env, all: seq<Batch>, maxFiles: Option<nat>, files: Files, batches: seq<Batch>)
    requires UniquePaths(env.reusable) && RowsOk(env) && forall b :: b in batches ==> b in all
    ensures var r := RunBatches(env, maxFiles, Running(Start(env, files)), batches);
            !r.Failed? ==>
              && AllForListed(env, all, r.p.tally.manifest)
              && Lookup(r.p.files, MANIFEST_PATH) == Lookup(files, MANIFEST_PATH)
    decreases |batches|
  {
    hide RowsOk, RunFiles, UniquePaths, ForListed;
    if batches != [] {
      assert forall b :: b in Front(batches) ==> b in batches;
      RunForListed(env, all, maxFiles, files, Front(batches));
      var r := RunBatches(env, maxFiles, Running(Start(env, files)), Front(batches));
      var b := Last(batches);
      assert b in batches;
      if r.Running? {
        hide AllForListed;
        assert AllForListed(env, all, WithListing(b, r.p).tally.manifest);
        FilesForListed(env, all, maxFiles, b, WithListing(b, r.p), b.files);
      }
    }
  }

  // ---------- The manifest afterwards ----------

  lemma FinishedManifest(env: Env, format: ManifestFormat, p: Progress, partial: bool)
    requires format.Valid()
    ensures var r, before := Finished(env, format, p, partial), Resolved(p.files, format);
            r.Ok? ==>
              && r.value.0.partial == partial
              && (partial && before.Some? ==> Resolved(r.value.1, format) == Some(Merged(before.value, p.tally.manifest))
                                              || (p.tally.manifest == [] && Resolved(r.value.1, format) == before))
              && (!partial && env.resolverUrl.Some? ==> Resolved(r.value.1, format) == Some(Merged(map[], p.tally.manifest)))
              && (!WritesManifest(env, p.tally, partial) ==> Resolved(r.value.1, format) == before)
              && (partial && before.None? ==> p.tally.manifest == [])
  {
    hide PathsOf, Merged;
  }

  lemma ListedOnly(env: Env, batches: seq<Batch>, entries: seq<(string, string)>, id: string)
    requires AllForListed(env, batches, entries)
    requires forall b, f :: b in batches && f in b.files ==> env.entryId(Key(f)) != id
    ensures forall i :: 0 <= i < |entries| ==> entries[i].0 != id
  {
    forall i | 0 <= i < |entries| ensures entries[i].0 != id {
      assert entries[i] in entries && ForListed(env, batches, entries[i]);
    }
  }

  /** A partial run, whatever stopped it, leaves every id that no listed file has as it was resolved before. */
  lemma PartialRunKeepsOthers(
    env: Env, format: ManifestFormat, maxFiles: Option<nat>, partial: bool, files: Files, batches: seq<Batch>, id: string)
    requires UniquePaths(env.reusable) && RowsOk(env) && format.Valid() && Resolved(files, format).Some?
    requires forall b, f :: b in batches && f in b.files ==> env.entryId(Key(f)) != id
    ensures var r := RunOutcome(env, format, maxFiles, partial, files, batches);
            r.Ok? && r.value.0.partial ==>
              && Resolved(r.value.1, format).Some?
              && Lookup(Resolved(r.value.1, format).value, id) == Lookup(Resolved(files, format).value, id)
  {
    hide RunBatches, Start, RowsOk, UniquePaths, Finished, Merged, AllForListed, ManifestFormat.Valid;
    var run := RunBatches(env, maxFiles, Running(Start(env, files)), batches);
    RunForListed(env, batches, maxFiles, files, batches);
    if !run.Failed? {
      FinishedManifest(env, format, run.p, if run.Stopped? then true else partial);
      ListedOnly(env, batches, run.p.tally.manifest, id);
      MergeKeepsOthers(Resolved(files, format).value, run.p.tally.manifest, id);
    }
  }

  lemma {:induction false} ListedInFiles(env: Env, before: seq<(string, string)>, files: seq<TorBoxFile>)
    requires env.resolverUrl.Some?
    ensures before <= ManifestOfFiles(env, before, files)
    ensures forall f :: f in files ==> (env.entryId(Key(f)), env.directUrl(Key(f))) in ManifestOfFiles(env, before, files)
    decreases |files|
  {
    if files != [] {
      ListedInFiles(env, before, Front(files));
      assert files == Front(files) + [Last(files)];
    }
  }

  lemma {:induction false} ListedInManifest(env: Env, batches: seq<Batch>, b: Batch, f: TorBoxFile)
    requires env.resolverUrl.Some? && b in batches && f in b.files
    ensures (env.entryId(Key(f)), env.directUrl(Key(f))) in ManifestOf(env, batches)
    decreases |batches|
  {
    hide ManifestOfFiles;
    assert batches == Front(batches) + [Last(batches)];
    ListedInFiles(env, ManifestOf(env, Front(batches)), Last(batches).files);
    if b in Front(batches) {
      ListedInManifest(env, Front(batches), b, f);
    }
  }

  /** After a full run with a resolver exactly the ids of listed files are resolved, each to its own download. */
  lemma FullRunResolvesListed(env: Env, format: ManifestFormat, files: Files, batches: seq<Batch>)
    requires UniquePaths(env.reusable) && RowsOk(env) && InjectiveIds(env) && format.Valid() && env.resolverUrl.Some?
    ensures var r := RunOutcome(env, format, None, false, files, batches);
            r.Ok? ==>
              && Resolved(r.value.1, format).Some?
              && var targets := Resolved(r.value.1, format).value;
                 && (forall b, f :: b in batches && f in b.files ==>
                       Lookup(targets, env.entryId(Key(f))) == Some(env.directUrl(Key(f))))
                 && (forall id :: (forall b, f :: b in batches && f in b.files ==> env.entryId(Key(f)) != id) ==> id !in targets)
  {
    if RunOutcome(env, format, None, false, files, batches).Ok? {
      hide RunOutcome, RunBatches, Start, RowsOk, UniquePaths, Finished, Merged, AllForListed, ManifestFormat.Valid, ManifestOf,
        IsListed, InjectiveIds;
      var p := FullRunEnds(env, format, files, batches);
      RunForListed(env, batches, None, files, batches);
      FinishedManifest(env, format, p, false);
      var entries := p.tally.manifest;
      forall b, f | b in batches && f in b.files
        ensures Lookup(Merged(map[], entries), env.entryId(Key(f))) == Some(env.directUrl(Key(f)))
      {
        ListedInManifest(env, batches, b, f);
        OneTarget(env, batches, entries, Key(f));
        MergeResolvesTo(map[], entries, env.entryId(Key(f)), env.directUrl(Key(f)));
      }
      forall id | forall b, f :: b in batches && f in b.files ==> env.entryId(Key(f)) != id
        ensures id !in Merged(map[], entries)
      {
        ListedOnly(env, batches, entries, id);
        MergeKeepsOthers(map[], entries, id);
      }
    }
  }

  lemma OneTarget(env: Env, batches: seq<Batch>, entries: seq<(string, string)>, key: SourceFileKey)
    requires AllForListed(env, batches, entries) && InjectiveIds(env)
    ensures forall i :: 0 <= i < |entries| && entries[i].0 == env.entryId(key) ==> entries[i].1 == env.directUrl(key)
  {
    forall i | 0 <= i < |entries| && entries[i].0 == env.entryId(key) ensures entries[i].1 == env.directUrl(key) {
      assert entries[i] in entries && ForListed(env, batches, entries[i]);
    }
  }

  /** A full run without a resolver leaves the manifest as it is. */
  lemma UnresolvedRunKeepsManifest(env: Env, format: ManifestFormat, files: Files, batches: seq<Batch>)
    requires UniquePaths(env.reusable) && RowsOk(env) && format.Valid() && env.resolverUrl.None?
    ensures var r := RunOutcome(env, format, None, false, files, batches);
            r.Ok? ==> Resolved(r.value.1, format) == Resolved(files, format)
  {
    if RunOutcome(env, format, None, false, files, batches).Ok? {
      hide RunBatches, Start, RowsOk, UniquePaths, Merged, AllForListed, ManifestFormat.Valid, IsListed, ManifestOf, PathsOf;
      var p := FullRunEnds(env, format, files, batches);
      RunForListed(env, batches, None, files, batches);
      NothingToNote(env, batches);
    }
  }

  lemma {:induction false} NothingToNote(env: Env, batches: seq<Batch>)
    requires env.resolverUrl.None?
    ensures ManifestOf(env, batches) == []
    decreases |batches|
  {
    if batches != [] {
      NothingToNote(env, Front(batches));
    }
  }
}
