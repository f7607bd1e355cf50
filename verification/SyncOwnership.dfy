/** Who owns which path during a run, and what every synced file plays in the end. */
module SyncOwnership {
  import opened Common
  import opened IdentityInputs
  import opened LibraryFiles
  import opened LibraryPaths
  import opened ReuseAgreement
  import opened StrmSync
  import opened SyncDecisions
  import opened SyncRuns
  import opened TorBoxFiles

  // ---------- The invariant ----------

  /** No reusable file has lost its path to another source. */
  ghost predicate ReusableKept(env: Env, claimed: Claims) {
    forall k :: k in env.reusable ==> env.reusable[k].path in claimed && claimed[env.reusable[k].path] == k
  }

  /** The path of a synced file belongs to its source and plays it, and the row carries the hash of that. */
  predicate Plays(env: Env, files: Files, claimed: Claims, s: Synced) {
    var url := PlaybackUrl(env, Key(s.file));
    && Lookup(claimed, s.path) == Some(Key(s.file))
    && Lookup(files, s.path) == Some(Content(url))
    && s.contentHash == env.contentHash(url)
    && s.entryId == env.entryId(Key(s.file))
  }

  ghost predicate Owned(env: Env, p: Progress) {
    && ReusableKept(env, p.claimed)
    && forall s :: s in p.tally.synced ==> Plays(env, p.files, p.claimed, s)
  }

  /** Behind every claim stands a reusable or a synced file. */
  ghost predicate Backed(env: Env, p: Progress) {
    forall path :: path in p.claimed ==>
      || (p.claimed[path] in env.reusable && env.reusable[p.claimed[path]].path == path)
      || exists s :: s in p.tally.synced && s.path == path && Key(s.file) == p.claimed[path]
  }

  lemma StartIsOwned(env: Env, files: Files)
    requires UniquePaths(env.reusable)
    ensures Owned(env, Start(env, files)) && Backed(env, Start(env, files))
  {
    var claimed := InitialClaims(env.reusable);
    forall k | k in env.reusable ensures env.reusable[k].path in claimed && claimed[env.reusable[k].path] == k {
    }
  }

  // ---------- One step ----------

  /** Writing to a path that is free for the source disturbs no other synced file. */
  lemma PlayingGoesOn(env: Env, p: Progress, path: Path, key: SourceFileKey, s: Synced)
    requires Plays(env, p.files, p.claimed, s) && Free(p.claimed, path, key)
    ensures Plays(env, p.files[path := Content(PlaybackUrl(env, key))], p.claimed[path := key], s)
  {
  }

  lemma SyncedPlays(env: Env, p: Progress, q: Progress, f: TorBoxFile, s: Synced)
    requires Syncs(env, p, q, f, s) && ReusableKept(env, p.claimed)
    ensures Plays(env, q.files, q.claimed, s)
  {
    hide RowOk;
  }

  lemma ReusableStaysKept(env: Env, claimed: Claims, path: Path, key: SourceFileKey)
    requires ReusableKept(env, claimed) && Free(claimed, path, key)
    ensures ReusableKept(env, claimed[path := key])
  {
  }

  lemma FreeSyncKeepsOwned(env: Env, p: Progress, q: Progress, f: TorBoxFile, s: Synced)
    requires Owned(env, p) && Syncs(env, p, q, f, s) && (!s.reused ==> Free(p.claimed, s.path, Key(f)))
    ensures Owned(env, q)
  {
    hide Plays, ReusableKept, Free, Content, RowOk, Describes, PlaybackUrl;
    SyncedPlays(env, p, q, f, s);
    if !s.reused {
      ReusableStaysKept(env, p.claimed, s.path, Key(f));
    }
    forall x | x in q.tally.synced ensures Plays(env, q.files, q.claimed, x) {
      if x in p.tally.synced && !s.reused {
        PlayingGoesOn(env, p, s.path, Key(f), x);
      }
    }
  }

  /** Taking a path from another source breaks the ownership of that source. */
  lemma TakingBreaksOwned(env: Env, p: Progress, q: Progress, f: TorBoxFile, s: Synced)
    requires Backed(env, p) && Syncs(env, p, q, f, s) && !s.reused && !Free(p.claimed, s.path, Key(f))
    ensures !Owned(env, q)
  {
    hide RowOk, Describes;
    var other := p.claimed[s.path];
    if !(other in env.reusable && env.reusable[other].path == s.path) {
      var x :| x in p.tally.synced && x.path == s.path && Key(x.file) == other;
      assert x in q.tally.synced;
      assert !Plays(env, q.files, q.claimed, x);
    }
  }

  lemma SyncKeepsBacked(env: Env, p: Progress, q: Progress, f: TorBoxFile, s: Synced)
    requires Backed(env, p) && Syncs(env, p, q, f, s)
    ensures Backed(env, q)
  {
    hide RowOk, Content, PlaybackUrl;
    forall path | path in q.claimed
      ensures || (q.claimed[path] in env.reusable && env.reusable[q.claimed[path]].path == path)
              || exists x :: x in q.tally.synced && x.path == path && Key(x.file) == q.claimed[path]
    {
      assert s in q.tally.synced;
      if path in p.claimed && p.claimed[path] == q.claimed[path]
         && !(p.claimed[path] in env.reusable && env.reusable[p.claimed[path]].path == path) {
        var x :| x in p.tally.synced && x.path == path && Key(x.file) == p.claimed[path];
        assert x in q.tally.synced;
      }
    }
  }

  /** A step leaves every source with its own path and playback file exactly when it prints nothing, or not
      all paths it may print to belong to others. */
  lemma StepOwnership(env: Env, discovered: map<string, string>, p: Progress, f: TorBoxFile)
    requires Owned(env, p) && Backed(env, p) && RowsOk(env)
    ensures var d, r := Decide(env, p.files, f, discovered), StepFile(env, discovered, p, f);
            && (d.Print? ==> ValidEntry(d.entry))
            && (r.Ok? ==>
                  && Backed(env, r.value)
                  && (Owned(env, r.value) <==> (d.Print? ==> !Clashes(env, p.claimed, d.entry, f))))
  {
    hide StepFile, Decide, Syncs, TargetPath, Clashes, RowsOk, Free, ValidEntry, Plays, ReusableKept;
    PrintedEntry(env, p.files, f, discovered);
    var d, r := Decide(env, p.files, f, discovered), StepFile(env, discovered, p, f);
    var s := StepShape(env, discovered, p, f);
    if r.Ok? && s.Some? {
      hide Owned, Backed;
      SyncKeepsBacked(env, p, r.value, f, s.value);
      if d.Print? {
        TargetIsFree(env, p.claimed, d.entry, f);
      }
      if s.value.reused || Free(p.claimed, s.value.path, Key(f)) {
        FreeSyncKeepsOwned(env, p, r.value, f, s.value);
      } else {
        TakingBreaksOwned(env, p, r.value, f, s.value);
      }
    }
  }

  lemma PathLengths(env: Env, e: Entry, f: TorBoxFile)
    requires ValidEntry(e)
    ensures |EntryPath(e)| < |Alternate(env, e, f)| < |Suffixed(env, e, f)|
  {
    var parts, name := LibraryEntryRelativePath(e), SourceName(f);
    var alternate := AlternateVersionPath(parts, name, env.labels, None);
    var suffixed := AlternateVersionPath(parts, name, env.labels, Some(Prefix8(env.entryId(Key(f)))));
    StemEnds(e);
    StemOfStrm(FileStem(e));
    assert Last(parts) == FileStem(e) + ".strm";
    hide LibraryEntryRelativePath, ValidEntry, Stem, VersionLabel, FileStem;
    assert Front(suffixed) == Front(alternate) == Front(parts);
    assert |Last(suffixed)| > |Last(alternate)| > |Last(parts)|;
    JoinedLength(parts);
    JoinedLength(alternate);
    JoinedLength(suffixed);
  }

  lemma SuffixIsUnchecked(env: Env, claimed: Claims, e: Entry, f: TorBoxFile)
    requires ValidEntry(e) && Key(f) !in env.reusable
    requires !Free(claimed, EntryPath(e), Key(f)) && !Free(claimed, Alternate(env, e, f), Key(f))
    ensures TargetPath(env, claimed, e, f) == Suffixed(env, e, f)
  {
  }

  /** Where this fails: four new files of one title whose names carry the same version label.  The first three
      get three paths; the suffix of the fourth, when its entry id starts with the same eight characters as that
      of the third, is the third's path, and it is taken without looking. */
  lemma FourthVersionTakesThirdPath(env: Env, e: Entry, f1: TorBoxFile, f2: TorBoxFile, f3: TorBoxFile, f4: TorBoxFile)
    requires ValidEntry(e) && Key(f1) != Key(f2) && Key(f3) !in {Key(f1), Key(f2)} && Key(f4) !in {Key(f1), Key(f2), Key(f3)}
    requires forall f :: f in {f1, f2, f3, f4} ==> Key(f) !in env.reusable && SourceName(f) == SourceName(f1)
    requires Prefix8(env.entryId(Key(f3))) == Prefix8(env.entryId(Key(f4)))
    ensures var p1 := TargetPath(env, map[], e, f1);
            var c1 := map[p1 := Key(f1)];
            var p2 := TargetPath(env, c1, e, f2);
            var c2 := c1[p2 := Key(f2)];
            var p3 := TargetPath(env, c2, e, f3);
            var c3 := c2[p3 := Key(f3)];
            var p4 := TargetPath(env, c3, e, f4);
            && p1 != p2 && p1 != p3 && p2 != p3
            && p4 == p3 && c3[p4] == Key(f3) != Key(f4)
  {
    var path, alternate, suffixed := EntryPath(e), Alternate(env, e, f1), Suffixed(env, e, f3);
    PathLengths(env, e, f3);
    assert alternate == Alternate(env, e, f2) == Alternate(env, e, f3) == Alternate(env, e, f4);
    assert suffixed == Suffixed(env, e, f4);
    hide EntryPath, Alternate, Suffixed, ValidEntry, SourceName, Prefix8;
    var c2 := map[path := Key(f1), alternate := Key(f2)];
    SuffixIsUnchecked(env, c2, e, f3);
    SuffixIsUnchecked(env, c2[suffixed := Key(f3)], e, f4);
  }

  function TotalLength(parts: seq<string>): nat {
    if parts == [] then 0 else TotalLength(Front(parts)) + |Last(parts)|
  }

  lemma {:induction false} JoinedLength(parts: seq<string>)
    requires parts != []
    ensures |JoinPath(parts)| == TotalLength(parts) + |parts| - 1
  {
    if |parts| > 1 {
      JoinedLength(parts[1..]);
      TotalOfRest(parts);
    }
  }

  lemma {:induction false} TotalOfRest(parts: seq<string>)
    requires parts != []
    ensures TotalLength(parts) == |parts[0]| + TotalLength(parts[1..])
  {
    if |parts| > 1 {
      TotalOfRest(Front(parts));
      assert Front(parts)[1..] == Front(parts[1..]);
    }
  }

  // ---------- Reuse equals reprocessing ----------

  /** The rows say the same of the file, apart from how its identity was found and whether it was reused. */
  predicate SameRecord(a: Synced, b: Synced) {
    b == a.(reused := b.reused, sourceTitle := b.sourceTitle, authority := b.authority, confidence := b.confidence,
            resolverVersion := b.resolverVersion)
  }

  /** Two outcomes of one file that differ in nothing but the counter of reuses and the origin of the identity. */
  ghost predicate SameOutcome(a: Result<Progress, Error>, b: Result<Progress, Error>) {
    match (a, b)
    case (Raised(e), Raised(g)) => e == g
    case (Ok(p), Ok(q)) =>
      && p.files == q.files && p.claimed == q.claimed
      && q.tally == p.tally.(reused := q.tally.reused, synced := q.tally.synced)
      && |p.tally.synced| == |q.tally.synced|
      && forall i :: 0 <= i < |p.tally.synced| ==> SameRecord(p.tally.synced[i], q.tally.synced[i])
    case _ => false
  }

  lemma KeepEqualsPrint(
    env: Env, p: Progress, row: Synced, f: TorBoxFile, hash: Option<string>, selected: Option<Known>, anew: Decision)
    requires Reusable(env, p.files, row, f, hash, selected)
    requires Lookup(env.reusable, Key(f)) == Some(row) && Free(p.claimed, row.path, Key(f)) && row.path in p.claimed
    requires ValidEntry(EntryOf(row, PlaybackUrl(env, Key(f))))
    requires Agrees(row, PlaybackUrl(env, Key(f)), Keep(row), anew)
    ensures SameOutcome(Apply(env, p, f, hash, Keep(row)), Apply(env, p, f, hash, anew))
  {
    var e := EntryOf(row, PlaybackUrl(env, Key(f)));
    hide ValidEntry, EntryPath, Alternate, Suffixed, PlaybackUrl, Content;
    assert TargetPath(env, p.claimed, e, f) == row.path;
    assert p.files[row.path := Content(e.url)] == p.files && p.claimed[row.path := Key(f)] == p.claimed;
    assert SameRecord(row.(reused := true), SyncedFile(env, row.path, e, f, hash, anew.known, anew.sourceTitle));
  }

  /** A row that is accepted and agrees with reprocessing comes to the same path, bytes, claims, counters, exclusions
      and record as reprocessing does. */
  lemma AgreementGivesSameOutcome(
    env: Env, p: Progress, f: TorBoxFile, hash: Option<string>, selected: Option<Known>, anew: Decision)
    requires Key(f) in env.reusable && ReusableKept(env, p.claimed)
    requires Reusable(env, p.files, env.reusable[Key(f)], f, hash, selected)
    requires var url := PlaybackUrl(env, Key(f));
             Agrees(env.reusable[Key(f)], url, ReuseDecision(env, env.reusable[Key(f)], url), anew)
    ensures anew.Print? ==> ValidEntry(anew.entry)
    ensures SameOutcome(
              Apply(env, p, f, hash, ReuseDecision(env, env.reusable[Key(f)], PlaybackUrl(env, Key(f)))),
              Apply(env, p, f, hash, anew))
  {
    var row, url := env.reusable[Key(f)], PlaybackUrl(env, Key(f));
    assert Free(p.claimed, row.path, Key(f)) && row.path in p.claimed;
    if ReuseDecision(env, row, url).Keep? {
      KeepEqualsPrint(env, p, row, f, hash, selected, anew);
    }
    hide ReusableKept, Reusable, ValidEntry, PlaybackUrl, SyncedFile, TargetPath, Scanned, Exclusions;
  }

  lemma ReuseIsDecided(env: Env, discovered: map<string, string>, p: Progress, f: TorBoxFile)
    requires Reuses(env, p.files, f, discovered)
    ensures StepFile(env, discovered, p, f) ==
            Apply(env, p, f, InfoHash(env, discovered, f), ReuseDecision(env, env.reusable[Key(f)], PlaybackUrl(env, Key(f))))
  {
    hide Reuses, Apply, ReuseDecision, InfoHash, PlaybackUrl;
  }

  /** The step of a run that never reuses: the file is processed again whatever its row says. */
  function FreshStep(env: Env, discovered: map<string, string>, p: Progress, f: TorBoxFile): Result<Progress, Error> {
    var hash := InfoHash(env, discovered, f);
    FreshIsValid(env, f, SelectedIdentity(env, f.itemId, hash));
    Apply(env, p, f, hash, FreshDecision(env, f, SelectedIdentity(env, f.itemId, hash)))
  }

  lemma FreshIsValid(env: Env, f: TorBoxFile, selected: Option<Known>)
    ensures FreshDecision(env, f, selected).Print? ==> ValidEntry(FreshDecision(env, f, selected).entry)
  {
    if ValidEntry(ParsedEntry(env, f)) {
      ResolvedEntryIsValid(env, ParsedEntry(env, f), selected);
    }
    hide ValidEntry, ResolveEntry, Exclusions, ParsedEntry;
  }

  /** Whatever identity is selected: reusing a stable row is reprocessing its file. */
  lemma StableReuseEqualsReprocessing(env: Env, discovered: map<string, string>, p: Progress, f: TorBoxFile)
    requires ReusableKept(env, p.claimed) && Reuses(env, p.files, f, discovered) && Faithful(env, env.reusable[Key(f)])
    requires Stable(env, env.reusable[Key(f)], f, SelectedIdentity(env, f.itemId, InfoHash(env, discovered, f)))
    ensures SameOutcome(StepFile(env, discovered, p, f), FreshStep(env, discovered, p, f))
  {
    var hash := InfoHash(env, discovered, f);
    var selected := SelectedIdentity(env, f.itemId, hash);
    ReuseAgrees(env, p.files, env.reusable[Key(f)], f, hash, selected);
    ReuseIsDecided(env, discovered, p, f);
    hide ReusableKept, Reusable, Stable, Faithful, Agrees, FreshDecision, ReuseDecision, SameOutcome, Apply, StepFile, ValidEntry,
      SelectedIdentity, InfoHash, PlaybackUrl;
    AgreementGivesSameOutcome(env, p, f, hash, selected, FreshDecision(env, f, selected));
  }

  /** Against a complete identity it is enough that no override names the resolved prefix. */
  lemma ReuseEqualsReprocessing(env: Env, discovered: map<string, string>, p: Progress, f: TorBoxFile, k: Known)
    requires ReusableKept(env, p.claimed) && Reuses(env, p.files, f, discovered) && Faithful(env, env.reusable[Key(f)])
    requires SelectedIdentity(env, f.itemId, InfoHash(env, discovered, f)) == Some(k) && Complete(k)
    requires var e := EntryOf(env.reusable[Key(f)], PlaybackUrl(env, Key(f)));
             ValidEntry(e) ==> SourcePrefix(e) !in env.overrides
    ensures SameOutcome(StepFile(env, discovered, p, f), FreshStep(env, discovered, p, f))
  {
    var row, hash := env.reusable[Key(f)], InfoHash(env, discovered, f);
    CompleteReuseAgrees(env, p.files, row, f, hash, k);
    NoOverride(env, EntryOf(row, PlaybackUrl(env, Key(f))));
    ReuseIsDecided(env, discovered, p, f);
    hide ReusableKept, Reusable, Faithful, Agrees, FreshDecision, ReuseDecision, SameOutcome, Apply, StepFile, ValidEntry,
      SelectedIdentity, InfoHash, PlaybackUrl, WithOverride, SourcePrefix, Complete;
    AgreementGivesSameOutcome(env, p, f, hash, Some(k), FreshDecision(env, f, Some(k)));
  }

  lemma NoOverride(env: Env, e: Entry)
    ensures ValidEntry(e) && SourcePrefix(e) !in env.overrides ==> WithOverride(env, e) == e
  {
  }

  // ---------- The run ----------

  /** The step prints nothing, or finds a path that no other source holds. */
  ghost predicate FileClashFree(env: Env, maxFiles: Option<nat>, b: Batch, r: Run, f: TorBoxFile) {
    r.Running? && !Full(maxFiles, r.p.tally) ==>
      var d := Decide(env, r.p.files, f, Discovered(b));
      d.Print? && ValidEntry(d.entry) ==> !Clashes(env, r.p.claimed, d.entry, f)
  }

  ghost predicate FilesClashFree(env: Env, maxFiles: Option<nat>, b: Batch, r: Run, files: seq<TorBoxFile>)
    decreases |files|
  {
    files != [] ==>
      && FilesClashFree(env, maxFiles, b, r, Front(files))
      && FileClashFree(env, maxFiles, b, RunFiles(env, maxFiles, b, r, Front(files)), Last(files))
  }

  /** No file of the run finds all its paths held by other sources. */
  ghost predicate ClashFree(env: Env, maxFiles: Option<nat>, start: Run, batches: seq<Batch>)
    decreases |batches|
  {
    batches != [] ==>
      && ClashFree(env, maxFiles, start, Front(batches))
      && var r := RunBatches(env, maxFiles, start, Front(batches));
         r.Running? ==> FilesClashFree(env, maxFiles, Last(batches), Running(WithListing(Last(batches), r.p)), Last(batches).files)
  }

  /** Distinct files have distinct entry ids. */
  ghost predicate InjectiveIds(env: Env) {
    forall k, j :: env.entryId(k) == env.entryId(j) ==> k == j
  }

  /** The manifest entries are those of sources, and with a resolver every synced file has one. */
  ghost predicate Manifested(env: Env, t: Tally) {
    && (forall i, k :: 0 <= i < |t.manifest| && t.manifest[i].0 == env.entryId(k) ==> t.manifest[i].1 == env.directUrl(k))
    && (env.resolverUrl.Some? ==> forall s :: s in t.synced ==> (s.entryId, env.directUrl(Key(s.file))) in t.manifest)
  }

  lemma StepManifests(env: Env, discovered: map<string, string>, p: Progress, f: TorBoxFile)
    requires Manifested(env, p.tally) && InjectiveIds(env) && RowsOk(env)
    ensures var r := StepFile(env, discovered, p, f);
            r.Ok? ==> Manifested(env, r.value.tally)
  {
    hide StepFile, Decide, RowsOk, RowOk, TargetPath, ValidEntry;
    var s := StepShape(env, discovered, p, f);
    var r := StepFile(env, discovered, p, f);
    if r.Ok? && env.resolverUrl.Some? {
      assert r.value.tally.manifest == p.tally.manifest + [(env.entryId(Key(f)), env.directUrl(Key(f)))];
      forall x | x in r.value.tally.synced ensures (x.entryId, env.directUrl(Key(x.file))) in r.value.tally.manifest {
        if x !in p.tally.synced {
          assert r.value.tally.manifest[|p.tally.manifest|] == (x.entryId, env.directUrl(Key(x.file)));
        }
      }
    }
  }

  /** The invariants of a run in which nothing clashes. */
  ghost predicate RunInv(env: Env, p: Progress) {
    Owned(env, p) && Backed(env, p) && Manifested(env, p.tally)
  }

  lemma {:induction false} FilesKeepRunInv(env: Env, maxFiles: Option<nat>, b: Batch, p: Progress, files: seq<TorBoxFile>)
    requires RunInv(env, p) && InjectiveIds(env) && RowsOk(env)
    requires FilesClashFree(env, maxFiles, b, Running(p), files)
    ensures var r := RunFiles(env, maxFiles, b, Running(p), files);
            !r.Failed? ==> RunInv(env, r.p)
    decreases |files|
  {
    hide Owned, Backed, Manifested, InjectiveIds, RowsOk, StepFile, Decide, Clashes, ValidEntry, Full;
    if files != [] {
      FilesKeepRunInv(env, maxFiles, b, p, Front(files));
      var r := RunFiles(env, maxFiles, b, Running(p), Front(files));
      if r.Running? {
        StepOwnership(env, Discovered(b), r.p, Last(files));
        StepManifests(env, Discovered(b), r.p, Last(files));
      }
    }
  }

  lemma ListingKeepsRunInv(env: Env, b: Batch, p: Progress)
    requires RunInv(env, p)
    ensures RunInv(env, WithListing(b, p))
  {
  }

  lemma {:induction false} RunKeepsRunInv(env: Env, files: Files, maxFiles: Option<nat>, batches: seq<Batch>)
    requires UniquePaths(env.reusable) && InjectiveIds(env) && RowsOk(env)
    requires ClashFree(env, maxFiles, Running(Start(env, files)), batches)
    ensures var r := RunBatches(env, maxFiles, Running(Start(env, files)), batches);
            !r.Failed? ==> RunInv(env, r.p)
    decreases |batches|
  {
    hide Owned, Backed, Manifested, InjectiveIds, RowsOk, RunFiles, FilesClashFree, UniquePaths;
    if batches == [] {
      StartIsOwned(env, files);
      StartIsManifested(env, files);
    } else {
      RunKeepsRunInv(env, files, maxFiles, Front(batches));
      var r := RunBatches(env, maxFiles, Running(Start(env, files)), Front(batches));
      if r.Running? {
        var b := Last(batches);
        ListingKeepsRunInv(env, b, r.p);
        hide RunInv;
        FilesKeepRunInv(env, maxFiles, b, WithListing(b, r.p), b.files);
      }
    }
  }

  lemma StartIsManifested(env: Env, files: Files)
    requires UniquePaths(env.reusable)
    ensures Manifested(env, Start(env, files).tally)
  {
  }

  // ---------- The end ----------

  /** An id whose entries all carry the same target resolves to it. */
  lemma {:induction false} MergeResolvesTo(existing: map<string, string>, entries: seq<(string, string)>, id: string, target: string)
    requires (id, target) in entries && forall i :: 0 <= i < |entries| && entries[i].0 == id ==> entries[i].1 == target
    ensures Lookup(Merged(existing, entries), id) == Some(target)
  {
    if Last(entries).0 != id {
      assert (id, target) in Front(entries);
      MergeResolvesTo(existing, Front(entries), id, target);
    }
  }

  /** After a run in which nothing clashes, however it ended: distinct sources have distinct paths, every
      synced path holds the playback address of its own file and its row the hash of that, and with a resolver
      the manifest leads from the address back to the file's own download. */
  lemma SyncedFilesPlay(
    env: Env, format: ManifestFormat, maxFiles: Option<nat>, partial: bool, files: Files, batches: seq<Batch>, s: Synced)
    requires UniquePaths(env.reusable) && InjectiveIds(env) && RowsOk(env) && format.Valid()
    requires ClashFree(env, maxFiles, Running(Start(env, files)), batches)
    requires RunOutcome(env, format, maxFiles, partial, files, batches).Ok?
    requires s in RunOutcome(env, format, maxFiles, partial, files, batches).value.0.synced
    ensures var (result, after) := RunOutcome(env, format, maxFiles, partial, files, batches).value;
            var key := Key(s.file);
            && Lookup(after, s.path) == Some(Content(PlaybackUrl(env, key)))
            && s.contentHash == env.contentHash(PlaybackUrl(env, key))
            && (forall x :: x in result.synced && Key(x.file) != key ==> x.path != s.path)
            && (env.resolverUrl.Some? ==>
                  && MANIFEST_PATH in after
                  && var targets := format.read_(after[MANIFEST_PATH]);
                     && targets.Some? && Lookup(targets.value, env.entryId(key)) == Some(env.directUrl(key)))
  {
    hide ClashFree, RunBatches, RowsOk, UniquePaths, InjectiveIds, Grown, RunInv;
    RunKeepsRunInv(env, files, maxFiles, batches);
    RunGrows(env, files, maxFiles, batches);
    var r := RunBatches(env, maxFiles, Running(Start(env, files)), batches);
    FinishedPlays(env, format, files, r.p, if r.Stopped? then true else partial, s);
  }

  lemma FinishedPlays(env: Env, format: ManifestFormat, initial: Files, p: Progress, partial: bool, s: Synced)
    requires RunInv(env, p) && Grown(env, initial, p) && format.Valid() && s in p.tally.synced
    requires Finished(env, format, p, partial).Ok?
    ensures var (result, after) := Finished(env, format, p, partial).value;
            var key := Key(s.file);
            && result.synced == p.tally.synced
            && Lookup(after, s.path) == Some(Content(PlaybackUrl(env, key)))
            && s.contentHash == env.contentHash(PlaybackUrl(env, key))
            && (forall x :: x in result.synced && Key(x.file) != key ==> x.path != s.path)
            && (env.resolverUrl.Some? ==>
                  && MANIFEST_PATH in after
                  && var targets := format.read_(after[MANIFEST_PATH]);
                     && targets.Some? && Lookup(targets.value, env.entryId(key)) == Some(env.directUrl(key)))
  {
    hide Backed, ReusableKept, Content, PlaybackUrl, Faithful, PathsOf, PrintedPaths, Merged;
    assert RowOk(env, s) && Plays(env, p.files, p.claimed, s);
    assert s.path != MANIFEST_PATH;
    forall x | x in p.tally.synced && Key(x.file) != Key(s.file) ensures x.path != s.path {
      assert Plays(env, p.files, p.claimed, x);
    }
    if env.resolverUrl.Some? {
      var existing := ExistingEntries(p.files, format, !partial);
      MergeResolvesTo(existing.value, p.tally.manifest, s.entryId, env.directUrl(Key(s.file)));
    }
  }
}
