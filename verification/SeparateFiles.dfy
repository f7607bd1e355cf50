/** Listings of which no two files can be taken for each other: what a run syncs of them is separate. */
module SeparateFiles {
  import opened ClashFreedom
  import opened Common
  import opened LibraryFiles
  import opened LibraryPaths
  import opened NextRun
  import opened SecondSync
  import opened StrmSync
  import opened SyncDecisions
  import opened SyncOwnership
  import opened SyncRuns
  import opened SyncState
  import opened TorBoxFiles

  // ---------- Listings ----------

  datatype Listed = Listed(batch: Batch, file: TorBoxFile)

  function HashOf(env: Env, l: Listed): Option<string> {
    InfoHash(env, Discovered(l.batch), l.file)
  }

  /** Distinct sources that under one hash differ in path, and in name or size. */
  predicate Apart(env: Env, a: Listed, b: Listed) {
    && Key(a.file) != Key(b.file)
    && (HashOf(env, a).Some? && HashOf(env, a) == HashOf(env, b) ==>
          a.file.path != b.file.path && (a.file.fileName != b.file.fileName || a.file.size != b.file.size))
  }

  function ListingOf(before: seq<Listed>, b: Batch, files: seq<TorBoxFile>): seq<Listed>
    decreases |files|
  {
    if files == [] then before else ListingOf(before, b, Front(files)) + [Listed(b, Last(files))]
  }

  /** All that is listed, in the order in which the run comes to it. */
  function Listing(batches: seq<Batch>): seq<Listed>
    decreases |batches|
  {
    if batches == [] then [] else ListingOf(Listing(Front(batches)), Last(batches), Last(batches).files)
  }

  ghost predicate AllApart(env: Env, listing: seq<Listed>)
    decreases |listing|
  {
    listing != [] ==>
      AllApart(env, Front(listing)) && forall a :: a in Front(listing) ==> Apart(env, a, Last(listing))
  }

  lemma {:induction false} PrefixApart(env: Env, listing: seq<Listed>, n: nat)
    requires AllApart(env, listing) && n <= |listing|
    ensures AllApart(env, listing[..n])
    decreases |listing|
  {
    if n == |listing| {
      assert listing[..n] == listing;
    } else {
      assert Front(listing)[..n] == listing[..n];
      PrefixApart(env, Front(listing), n);
    }
  }

  /** A source is listed once. */
  lemma {:induction false} OneListing(env: Env, listing: seq<Listed>, a: Listed, b: Listed)
    requires AllApart(env, listing) && a in listing && b in listing && Key(a.file) == Key(b.file)
    ensures a == b
    decreases |listing|
  {
    hide HashOf;
    assert listing == Front(listing) + [Last(listing)];
    if a in Front(listing) && b in Front(listing) {
      OneListing(env, Front(listing), a, b);
    }
  }

  lemma {:induction false} ListingHolds(before: seq<Listed>, b: Batch, files: seq<TorBoxFile>)
    ensures before <= ListingOf(before, b, files)
    ensures forall f :: f in files ==> Listed(b, f) in ListingOf(before, b, files)
    decreases |files|
  {
    if files != [] {
      ListingHolds(before, b, Front(files));
      assert files == Front(files) + [Last(files)];
    }
  }

  lemma {:induction false} ListedIsInListing(batches: seq<Batch>, b: Batch, f: TorBoxFile)
    requires b in batches && f in b.files
    ensures Listed(b, f) in Listing(batches)
    decreases |batches|
  {
    hide ListingOf;
    ListingHolds(Listing(Front(batches)), Last(batches), Last(batches).files);
    if b != Last(batches) {
      assert b in Front(batches);
      ListedIsInListing(Front(batches), b, f);
    }
  }

  // ---------- What is synced of a listing ----------

  /** The row is the listed file's: its id, hash and fingerprint, and the hash of its address. */
  predicate Stems(env: Env, l: Listed, x: Synced) {
    && x.file == l.file && x.entryId == env.entryId(Key(l.file)) && x.infoHash == HashOf(env, l)
    && x.fingerprint == Some(env.fingerprint) && x.contentHash == env.contentHash(PlaybackUrl(env, Key(l.file)))
  }

  ghost predicate StemsFrom(env: Env, listing: seq<Listed>, x: Synced) {
    exists l :: l in listing && Stems(env, l, x)
  }

  ghost predicate KeysApart(synced: seq<Synced>) {
    forall i, j :: 0 <= i < |synced| && 0 <= j < |synced| && i != j ==>
      Key(synced[i].file) != Key(synced[j].file) && !Twins(synced[i], synced[j])
  }

  ghost predicate Drawn(env: Env, listing: seq<Listed>, synced: seq<Synced>) {
    (forall x :: x in synced ==> StemsFrom(env, listing, x)) && KeysApart(synced)
  }

  lemma KeptIsReused(env: Env, files: Files, f: TorBoxFile, discovered: map<string, string>)
    ensures Decide(env, files, f, discovered).Keep? ==>
              Reuses(env, files, f, discovered) && Decide(env, files, f, discovered).row == env.reusable[Key(f)]
  {
    hide ValidEntry, ResolveEntry, Exclusions, Reuses, InfoHash, SelectedIdentity;
  }

  lemma StepStems(env: Env, b: Batch, p: Progress, f: TorBoxFile)
    ensures var r := StepFile(env, Discovered(b), p, f);
            r.Ok? ==>
              || r.value.tally.synced == p.tally.synced
              || (r.value.tally.synced != [] && Front(r.value.tally.synced) == p.tally.synced
                  && Stems(env, Listed(b, f), Last(r.value.tally.synced)))
  {
    hide TargetPath, ValidEntry, FreshDecision, Content, PlaybackUrl, InfoHash, SelectedIdentity, Exclusions;
    PrintedEntry(env, p.files, f, Discovered(b));
    KeptIsReused(env, p.files, f, Discovered(b));
    var d, r := Decide(env, p.files, f, Discovered(b)), StepFile(env, Discovered(b), p, f);
    if r.Ok? && d.Keep? {
      assert r.value.tally.synced == p.tally.synced + [d.row.(reused := true)];
    } else if r.Ok? && d.Print? {
      var x := SyncedFile(env, TargetPath(env, p.claimed, d.entry, f), d.entry, f, InfoHash(env, Discovered(b), f), d.known,
                          d.sourceTitle);
      assert r.value.tally.synced == p.tally.synced + [x];
    }
  }

  lemma ApartAreNoTwins(env: Env, a: Listed, b: Listed, x: Synced, y: Synced)
    requires InjectiveIds(env) && Apart(env, a, b) && Stems(env, a, x) && Stems(env, b, y)
    ensures Key(x.file) != Key(y.file) && !Twins(x, y) && !Twins(y, x)
  {
    hide InfoHash, PlaybackUrl;
  }

  lemma OneMoreDrawn(env: Env, listing: seq<Listed>, l: Listed, synced: seq<Synced>, x: Synced)
    requires InjectiveIds(env) && Drawn(env, listing, synced) && Stems(env, l, x)
    requires forall a :: a in listing ==> Apart(env, a, l)
    ensures Drawn(env, listing + [l], synced + [x])
  {
    hide Stems, Apart, Twins, InjectiveIds;
    forall y | y in synced ensures Key(x.file) != Key(y.file) && !Twins(x, y) && !Twins(y, x) {
      var a :| a in listing && Stems(env, a, y);
      ApartAreNoTwins(env, a, l, y, x);
    }
    forall y | y in synced + [x] ensures StemsFrom(env, listing + [l], y) {
      if y in synced {
        var a :| a in listing && Stems(env, a, y);
        assert a in listing + [l];
      } else {
        assert l in listing + [l];
      }
    }
  }

  lemma MoreListed(env: Env, listing: seq<Listed>, l: Listed, synced: seq<Synced>)
    requires Drawn(env, listing, synced)
    ensures Drawn(env, listing + [l], synced)
  {
    hide Stems, KeysApart;
    forall x | x in synced ensures StemsFrom(env, listing + [l], x) {
      var a :| a in listing && Stems(env, a, x);
      assert a in listing + [l];
    }
  }

  lemma {:induction false} FilesAreDrawn(env: Env, before: seq<Listed>, b: Batch, p: Progress, files: seq<TorBoxFile>)
    requires InjectiveIds(env) && Drawn(env, before, p.tally.synced) && AllApart(env, ListingOf(before, b, files))
    ensures var r := RunFiles(env, None, b, Running(p), files);
            r.Running? ==> Drawn(env, ListingOf(before, b, files), r.p.tally.synced)
    decreases |files|
  {
    hide InjectiveIds, Drawn, StepFile, Apart, Stems;
    if files != [] {
      var listing := ListingOf(before, b, files);
      assert Front(listing) == ListingOf(before, b, Front(files)) && Last(listing) == Listed(b, Last(files));
      FilesAreDrawn(env, before, b, p, Front(files));
      var r := RunFiles(env, None, b, Running(p), Front(files));
      if r.Running? {
        StepStems(env, b, r.p, Last(files));
        MoreListed(env, Front(listing), Last(listing), r.p.tally.synced);
        var after := StepFile(env, Discovered(b), r.p, Last(files));
        if after.Ok? && after.value.tally.synced != r.p.tally.synced {
          var synced := after.value.tally.synced;
          OneMoreDrawn(env, Front(listing), Last(listing), r.p.tally.synced, Last(synced));
          assert synced == Front(synced) + [Last(synced)];
        }
      }
    }
  }

  lemma NothingDrawn(env: Env, files: Files)
    requires UniquePaths(env.reusable)
    ensures Drawn(env, [], Start(env, files).tally.synced)
  {
  }

  /** A run over listings whose files are apart syncs each source at most once, under the id, hash and fingerprint of
      its own listing, and no two that could be taken for each other. */
  lemma {:induction false} RunIsDrawn(env: Env, files: Files, batches: seq<Batch>)
    requires UniquePaths(env.reusable) && InjectiveIds(env) && AllApart(env, Listing(batches))
    ensures var r := RunBatches(env, None, Running(Start(env, files)), batches);
            r.Running? ==> Drawn(env, Listing(batches), r.p.tally.synced)
    decreases |batches|
  {
    hide UniquePaths, InjectiveIds, Drawn, RunFiles, AllApart, ListingOf;
    if batches == [] {
      NothingDrawn(env, files);
    } else {
      var before, b := Listing(Front(batches)), Last(batches);
      ListingHolds(before, b, b.files);
      PrefixApart(env, Listing(batches), |before|);
      assert Listing(batches)[..|before|] == before;
      RunIsDrawn(env, files, Front(batches));
      var r := RunBatches(env, None, Running(Start(env, files)), Front(batches));
      if r.Running? {
        FilesAreDrawn(env, before, b, WithListing(b, r.p), b.files);
      }
    }
  }

  // ---------- Separate files ----------

  lemma OwnedAreSeparate(env: Env, listing: seq<Listed>, p: Progress)
    requires Owned(env, p) && Drawn(env, listing, p.tally.synced)
    ensures AllSeparate(p.tally.synced)
  {
    hide StemsFrom, Twins, ReusableKept, Content, PlaybackUrl;
    var synced := p.tally.synced;
    forall i, j | 0 <= i < |synced| && 0 <= j < |synced| && i != j ensures synced[i].path != synced[j].path {
      assert Plays(env, p.files, p.claimed, synced[i]) && Plays(env, p.files, p.claimed, synced[j]);
    }
  }

  /** From the inputs alone: if no two sources can contend for a path and no two listed files can be taken for each
      other, what a full run syncs is separate. */
  lemma UncontendedIsSeparate(env: Env, format: ManifestFormat, files: Files, batches: seq<Batch>)
    requires UniquePaths(env.reusable) && RowsOk(env) && InjectiveIds(env)
    requires Uncontended(env, batches) && AllApart(env, Listing(batches))
    ensures AllSeparate(SyncedBy(env, format, files, batches))
  {
    hide RunBatches, Start, RowsOk, InjectiveIds, UniquePaths, Uncontended, AllApart, Owned, Backed, Manifested, Drawn, Listing,
      AllSeparate, ClashFree, IsListed, ManifestOf, Finished;
    if RunOutcome(env, format, None, false, files, batches).Ok? {
      UncontendedIsClashFree(env, None, files, batches);
      RunKeepsRunInv(env, files, None, batches);
      RunIsDrawn(env, files, batches);
      var p := FullRunEnds(env, format, files, batches);
      OwnedAreSeparate(env, Listing(batches), p);
    } else {
      NothingIsSeparate();
    }
  }

  lemma NothingIsSeparate()
    ensures AllSeparate([])
  {
  }
}
